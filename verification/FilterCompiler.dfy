/** `compile_filter` (filters.py): a filter tree becomes bracket parameters, a `q=` text, or both. */
module FilterCompiler {
  import opened Basics
  import opened FilterTree
  import opened ThrukQuery
  import Q = QExpression

  // ---- Leaves ------------------------------------------------------------------------------------

  function VarColumn(f: Field, name: string): Column {
    VarCol(if f == HostCustomVar then HOST_PREFIX + Upper(name) else Upper(name))
  }

  /** `state_map.get(raw, int(value) if digits else value)`, with the maps of the bracket path. */
  function BracketState(ctx: Context, s: string): StateArg {
    var raw := Lower(s);
    if SvcStateInt(raw).Some? then Code(SvcStateInt(raw).value)
    else if ctx != Services && HostStateInt(raw).Some? then Code(HostStateInt(raw).value)
    else if IsDigits(s) then Code(DigitsValue(s))
    else Raw(s)
  }

  /** `state_map.get(raw, value)`, with the one map of the `q=` path. */
  function QState(ctx: Context, s: string): StateArg {
    var code := if ctx == Services then SvcStateInt(Lower(s)) else HostStateInt(Lower(s));
    if code.Some? then Code(code.value) else Raw(s)
  }

  function BracketOpOf(op: Op): BracketOp
    requires IsCompare(op)
  {
    match op
    case Eq => Plain
    case Neq => Ne
    case Gte => GteOp
    case Lte => LteOp
  }

  function GroupsColumn(ctx: Context, f: Field): Column {
    if f == Hostgroup && ctx == Services then HostGroupsCol else GroupsCol
  }

  /** `_leaf_to_params`: the one parameter a leaf becomes. */
  function LeafParam(ctx: Context, f: Field, op: Op, v: Value): Outcome<(Key, Param)> {
    if v.Variable? then Ok((Key(VarColumn(f, v.name), Plain), Given(One(v.val))))
    else if f == State then
      if IsCompare(op) && v.One? then Ok((Key(StateCol, BracketOpOf(op)), StateParam(BracketState(ctx, v.s))))
      else FilterError
    else if IsGroupField(f) then
      if op in {Eq, Gte} then Ok((Key(GroupsColumn(ctx, f), GteOp), Given(v)))
      else if op == Neq then Ok((Key(GroupsColumn(ctx, f), NotIn), Given(v)))
      else FilterError
    else if f == Since then Ok((Key(TimeCol, GteOp), Given(v)))
    else if f == Until then Ok((Key(TimeCol, LteOp), Given(v)))
    else
      match op
      case Regex => Ok((Key(TextCol(f), RegexOp), Given(v)))
      case In => Ok((Key(TextCol(f), RegexOp), if v.Many? then AnyOf(v.items) else Given(v)))
      case other => Ok((Key(TextCol(f), BracketOpOf(op)), Given(v)))
  }

  function QOpOf(op: Op): QOp {
    match op
    case Neq => QNe
    case Gte => QGe
    case Lte => QLe
    case other => QEq
  }

  function AtomsFor(ctx: Context, f: Field, items: seq<string>): (atoms: seq<QAtom>)
    ensures |atoms| == |items|
    ensures forall i :: 0 <= i < |items| ==> atoms[i] == AtomFor(ctx, f, Eq, One(items[i]))
  {
    if items == [] then [] else [AtomFor(ctx, f, Eq, One(items[0]))] + AtomsFor(ctx, f, items[1..])
  }

  function AtomFor(ctx: Context, f: Field, op: Op, v: Value): QAtom {
    if v.Variable? then QAtom(VarColumn(f, v.name), QEq, Given(One(v.val)))
    else if f == State then QAtom(StateCol, QOpOf(op), if v.One? then StateParam(QState(ctx, v.s)) else Given(v))
    else if IsGroupField(f) then QAtom(GroupsColumn(ctx, f), if op == Neq then QNe else QGe, Given(v))
    else if f == Since then QAtom(TimeCol, QGe, Given(v))
    else if f == Until then QAtom(TimeCol, QLe, Given(v))
    else QAtom(TextCol(f), if op == Regex then QRx else QOpOf(op), Given(v))
  }

  /** `_q_leaf`: one atom, or the alternatives of `in`. */
  function LeafQ(ctx: Context, f: Field, op: Op, v: Value): Q.QNode<QAtom> {
    if op == In && v.Many? && f !in {Since, Until} then Q.QIn(AtomsFor(ctx, f, v.items))
    else Q.QLeaf(AtomFor(ctx, f, op, v))
  }

  function ToQ(ctx: Context, n: Node): Q.QNode<QAtom>
    decreases n, 1
  {
    match n
    case Leaf(f, op, v) => LeafQ(ctx, f, op, v)
    case Group(isOr, conds) => Q.QGroup(isOr, ToQs(ctx, conds))
  }

  function ToQs(ctx: Context, conds: seq<Node>): (r: seq<Q.QNode<QAtom>>)
    ensures |r| == |conds|
    decreases conds, 0
  {
    if conds == [] then [] else [ToQ(ctx, conds[0])] + ToQs(ctx, conds[1..])
  }

  /** `_build_q_expr` on a root. */
  function BuildQ(ctx: Context, n: Node): Text {
    Q.Print(ToQ(ctx, n), true)
  }

  // ---- The compiler --------------------------------------------------------------------------------

  /** `_and_tree_to_params`: one dictionary per group, each updated with its children's. */
  function AndParams(ctx: Context, n: Node): Outcome<Params>
    decreases n, 1
  {
    match n
    case Leaf(f, op, v) =>
      (match LeafParam(ctx, f, op, v)
       case FilterError => FilterError
       case Ok((k, p)) => Ok(map[k := p]))
    case Group(_, conds) => UpdateWithAll(ctx, map[], conds)
  }

  function UpdateWithAll(ctx: Context, params: Params, conds: seq<Node>): Outcome<Params>
    decreases conds, 0
  {
    if conds == [] then Ok(params)
    else
      match AndParams(ctx, conds[0])
      case FilterError => FilterError
      case Ok(more) => UpdateWithAll(ctx, params + more, conds[1..])
  }

  method AndTreeToParams(ctx: Context, n: Node) returns (r: Outcome<Params>)
    ensures r == AndParams(ctx, n)
    decreases n
  {
    if n.Leaf? {
      var leaf := LeafParam(ctx, n.field, n.op, n.value);
      return match leaf case FilterError => FilterError case Ok((k, p)) => Ok(map[k := p]);
    }
    var params: Params := map[];
    for i := 0 to |n.conds|
      invariant UpdateWithAll(ctx, params, n.conds[i..]) == AndParams(ctx, n)
    {
      assert n.conds[i..][1..] == n.conds[i + 1..];
      var child := AndTreeToParams(ctx, n.conds[i]);
      if child.FilterError? {
        return FilterError;
      }
      params := params + child.value;
    }
    assert n.conds[|n.conds|..] == [];
    return Ok(params);
  }

  function OrFree(conds: seq<Node>): seq<Node> {
    if conds == [] then []
    else if HasOr(conds[0]) then OrFree(conds[1..])
    else [conds[0]] + OrFree(conds[1..])
  }

  function WithOr(conds: seq<Node>): seq<Node> {
    if conds == [] then []
    else if HasOr(conds[0]) then [conds[0]] + WithOr(conds[1..])
    else WithOr(conds[1..])
  }

  /** Several OR subtrees stay joined by AND; one stands for itself. */
  function Conjoin(nodes: seq<Node>): Node
    requires nodes != []
  {
    if |nodes| == 1 then nodes[0] else Group(false, nodes)
  }

  function HybridOf(ctx: Context, conds: seq<Node>): Outcome<Query> {
    match UpdateWithAll(ctx, map[], OrFree(conds))
    case FilterError => FilterError
    case Ok(params) =>
      Ok(Query(params, if WithOr(conds) == [] then None else Some(BuildQ(ctx, Conjoin(WithOr(conds))))))
  }

  /** `_compile_hybrid`: children without OR as parameters, the others as one `q=` text. */
  method CompileHybrid(ctx: Context, conds: seq<Node>) returns (r: Outcome<Query>)
    ensures r == HybridOf(ctx, conds)
  {
    var params: Params := map[];
    var orNodes: seq<Node> := [];
    for i := 0 to |conds|
      invariant UpdateWithAll(ctx, params, OrFree(conds[i..])) == UpdateWithAll(ctx, map[], OrFree(conds))
      invariant orNodes + WithOr(conds[i..]) == WithOr(conds)
    {
      assert conds[i..][1..] == conds[i + 1..];
      if HasOr(conds[i]) {
        orNodes := orNodes + [conds[i]];
      } else {
        var child := AndTreeToParams(ctx, conds[i]);
        if child.FilterError? {
          return FilterError;
        }
        params := params + child.value;
      }
    }
    assert conds[|conds|..] == [] && orNodes + [] == orNodes;
    return Ok(Query(params, if orNodes == [] then None else Some(BuildQ(ctx, Conjoin(orNodes)))));
  }

  /** `compile_filter`. */
  function Compile(ctx: Context, n: Node): Outcome<Query> {
    var e := Expand(n);
    if !HasOr(e) then
      match AndParams(ctx, e)
      case FilterError => FilterError
      case Ok(params) => Ok(Query(params, None))
    else if e.Leaf? || e.isOr then Ok(Query(map[], Some(BuildQ(ctx, e))))
    else HybridOf(ctx, e.conds)
  }

  method CompileFilter(ctx: Context, n: Node) returns (r: Outcome<Query>)
    ensures r == Compile(ctx, n)
  {
    var e := Expand(n);
    if !HasOr(e) {
      var params := AndTreeToParams(ctx, e);
      if params.FilterError? {
        return FilterError;
      }
      return Ok(Query(params.value, None));
    }
    if e.Leaf? || e.isOr {
      return Ok(Query(map[], Some(BuildQ(ctx, e))));
    }
    r := CompileHybrid(ctx, e.conds);
  }
}
