/** When the compiled query still selects what the tree selects. */
module FilterMeaning {
  import opened Basics
  import opened FilterTree
  import opened ThrukQuery
  import opened FilterCompiler
  import opened LeafMeaning
  import opened ParamDictionary
  import Q = QExpression

  // ---- Trees ---------------------------------------------------------------------------------------

  lemma {:induction false} LeavesAreLeaves(n: Node, l: Node)
    requires WellFormed(n) && NoGroupIn(n) && l in Leaves(n)
    ensures l.Leaf? && WellFormed(l) && NoGroupIn(l)
    decreases n, 1
  {
    if n.Leaf? {
    } else {
      LeavesOfAreLeaves(n.conds, l);
    }
  }

  lemma {:induction false} LeavesOfAreLeaves(conds: seq<Node>, l: Node)
    requires forall c :: c in conds ==> WellFormed(c) && NoGroupIn(c)
    requires l in LeavesOf(conds)
    ensures l.Leaf? && WellFormed(l) && NoGroupIn(l)
    decreases conds, 0
  {
    if l in Leaves(conds[0]) {
      LeavesAreLeaves(conds[0], l);
    } else {
      LeavesOfAreLeaves(conds[1..], l);
    }
  }

  /** The leaves of an accepted tree are valid leaves. */
  lemma {:induction false} LeavesAreValid(n: Node, allowed: set<Field>, compiles: string -> bool, depth: nat, l: Node)
    requires Valid(n, allowed, compiles, depth) && l in Leaves(n)
    ensures l.Leaf? && ValidLeaf(l.field, l.op, l.value, allowed, compiles)
    decreases n, 1
  {
    if n.Leaf? {
    } else {
      LeavesOfAreValid(n.conds, allowed, compiles, depth + 1, l);
    }
  }

  lemma {:induction false} LeavesOfAreValid(conds: seq<Node>, allowed: set<Field>, compiles: string -> bool, depth: nat,
                                            l: Node)
    requires (forall c :: c in conds ==> Valid(c, allowed, compiles, depth)) && l in LeavesOf(conds)
    ensures l.Leaf? && ValidLeaf(l.field, l.op, l.value, allowed, compiles)
    decreases conds, 0
  {
    if l in Leaves(conds[0]) {
      LeavesAreValid(conds[0], allowed, compiles, depth, l);
    } else {
      LeavesOfAreValid(conds[1..], allowed, compiles, depth, l);
    }
  }

  /** A tree without OR holds exactly when all its leaves do. */
  lemma {:induction false} AndTreeIsItsLeaves(t: Thruk, ctx: Context, n: Node, row: Row)
    requires !HasOr(n)
    ensures Holds(t, ctx, n, row) <==> forall l :: l in Leaves(n) ==> Holds(t, ctx, l, row)
    decreases n, 1
  {
    if n.Leaf? {
    } else {
      AndListIsItsLeaves(t, ctx, n.conds, row);
    }
  }

  lemma {:induction false} AndListIsItsLeaves(t: Thruk, ctx: Context, conds: seq<Node>, row: Row)
    requires forall c :: c in conds ==> !HasOr(c)
    ensures (forall c :: c in conds ==> Holds(t, ctx, c, row)) <==>
      forall l :: l in LeavesOf(conds) ==> Holds(t, ctx, l, row)
    decreases conds, 0
  {
    if conds == [] {
    } else {
      AndTreeIsItsLeaves(t, ctx, conds[0], row);
      AndListIsItsLeaves(t, ctx, conds[1..], row);
      assert conds == [conds[0]] + conds[1..];
    }
  }

  lemma {:induction false} ToQNonEmpty(ctx: Context, n: Node)
    requires WellFormed(n)
    ensures Q.NonEmpty(ToQ(ctx, n))
    decreases n, 1
  {
    if n.Leaf? {
    } else {
      ToQsNonEmpty(ctx, n.conds);
    }
  }

  lemma {:induction false} ToQsNonEmpty(ctx: Context, conds: seq<Node>)
    requires forall c :: c in conds ==> WellFormed(c)
    ensures forall q :: q in ToQs(ctx, conds) ==> Q.NonEmpty(q)
    decreases conds, 0
  {
    if conds == [] {
    } else {
      ToQNonEmpty(ctx, conds[0]);
      ToQsNonEmpty(ctx, conds[1..]);
    }
  }

  ghost predicate FaithfulTextNode(ctx: Context, l: Node) {
    l.Leaf? ==> FaithfulText(ctx, l.field, l.op, l.value)
  }

  /** The tree handed to the printer means what the filter tree means. */
  lemma {:induction false} ToQMeans(t: Thruk, ctx: Context, n: Node, row: Row)
    requires WellFormed(n) && NoGroupIn(n) && forall l :: l in Leaves(n) ==> FaithfulTextNode(ctx, l)
    ensures Q.Means(ToQ(ctx, n), (a: QAtom) => AtomHolds(t, ctx, a, row)) <==> Holds(t, ctx, n, row)
    decreases n, 1
  {
    if n.Leaf? {
      assert n in Leaves(n);
      TextLeafExact(t, ctx, n.field, n.op, n.value, row);
    } else {
      ToQsMean(t, ctx, n.conds, row);
    }
  }

  lemma {:induction false} ToQsMean(t: Thruk, ctx: Context, conds: seq<Node>, row: Row)
    requires forall c :: c in conds ==> WellFormed(c) && NoGroupIn(c)
    requires forall l :: l in LeavesOf(conds) ==> FaithfulTextNode(ctx, l)
    ensures var holds := (a: QAtom) => AtomHolds(t, ctx, a, row);
      && ((exists q :: q in ToQs(ctx, conds) && Q.Means(q, holds)) <==> exists c :: c in conds && Holds(t, ctx, c, row))
      && ((forall q :: q in ToQs(ctx, conds) ==> Q.Means(q, holds))
          <==> forall c :: c in conds ==> Holds(t, ctx, c, row))
    decreases conds, 0
  {
    if conds == [] {
    } else {
      ToQMeans(t, ctx, conds[0], row);
      ToQsMean(t, ctx, conds[1..], row);
      assert conds == [conds[0]] + conds[1..];
      assert ToQs(ctx, conds) == [ToQ(ctx, conds[0])] + ToQs(ctx, conds[1..]);
    }
  }

  /** A printed tree selects what the tree selects. */
  lemma BuildQSelects(t: Thruk, ctx: Context, andFirst: bool, n: Node, row: Row)
    requires WellFormed(n) && NoGroupIn(n) && forall l :: l in Leaves(n) ==> FaithfulTextNode(ctx, l)
    ensures Q.TextHolds(andFirst, BuildQ(ctx, n), (a: QAtom) => AtomHolds(t, ctx, a, row)) <==> Holds(t, ctx, n, row)
  {
    ToQNonEmpty(ctx, n);
    Q.PrintKeepsMeaning(andFirst, ToQ(ctx, n), true, (a: QAtom) => AtomHolds(t, ctx, a, row));
    ToQMeans(t, ctx, n, row);
  }

  // ---- Routes --------------------------------------------------------------------------------------

  /** The leaves that become bracket parameters. */
  function BracketLeaves(e: Node): seq<Node> {
    if !HasOr(e) then Leaves(e) else if e.Leaf? || e.isOr then [] else LeavesOf(OrFree(e.conds))
  }

  /** The tree that becomes the `q=` text, if any. */
  function TextTree(e: Node): Option<Node> {
    if !HasOr(e) then None
    else if e.Leaf? || e.isOr then Some(e)
    else if WithOr(e.conds) == [] then None
    else Some(Conjoin(WithOr(e.conds)))
  }

  /** All three routes at once: parameters from the one part, text from the other. */
  lemma CompileSplits(ctx: Context, n: Node)
    ensures var e := Expand(n);
      Compile(ctx, n) ==
        match AddLeaves(ctx, map[], BracketLeaves(e))
        case FilterError => FilterError
        case Ok(params) => Ok(Query(params, if TextTree(e).None? then None else Some(BuildQ(ctx, TextTree(e).value))))
  {
    var e := Expand(n);
    if !HasOr(e) {
      AndParamsAddLeaves(ctx, e);
    } else if !(e.Leaf? || e.isOr) {
      UpdateAddsLeaves(ctx, map[], OrFree(e.conds));
    }
  }

  lemma {:induction false} PartsOfList(conds: seq<Node>)
    ensures forall c :: c in conds <==> c in OrFree(conds) || c in WithOr(conds)
    ensures forall c :: c in OrFree(conds) ==> !HasOr(c)
    ensures (exists c :: c in conds && HasOr(c)) ==> WithOr(conds) != []
  {
    if conds == [] {
    } else {
      PartsOfList(conds[1..]);
      assert conds == [conds[0]] + conds[1..];
    }
  }

  lemma ConjoinHolds(t: Thruk, ctx: Context, nodes: seq<Node>, row: Row)
    requires nodes != []
    ensures Holds(t, ctx, Conjoin(nodes), row) <==> forall c :: c in nodes ==> Holds(t, ctx, c, row)
  {
    assert |nodes| == 1 ==> nodes == [nodes[0]];
  }

  ghost predicate AllHold(t: Thruk, ctx: Context, nodes: seq<Node>, row: Row) {
    forall l :: l in nodes ==> Holds(t, ctx, l, row)
  }

  lemma HybridCoversList(t: Thruk, ctx: Context, conds: seq<Node>, row: Row)
    ensures AllHold(t, ctx, conds, row) <==>
      AllHold(t, ctx, LeavesOf(OrFree(conds)), row) && AllHold(t, ctx, WithOr(conds), row)
  {
    PartsOfList(conds);
    AndListIsItsLeaves(t, ctx, OrFree(conds), row);
  }

  lemma HybridCoversTree(t: Thruk, ctx: Context, e: Node, row: Row)
    requires e.Group? && !e.isOr && HasOr(e)
    ensures Holds(t, ctx, e, row) <==>
      AllHold(t, ctx, BracketLeaves(e), row) && (TextTree(e).Some? ==> Holds(t, ctx, TextTree(e).value, row))
  {
    HybridCoversList(t, ctx, e.conds, row);
    assert Holds(t, ctx, e, row) <==> AllHold(t, ctx, e.conds, row);
    if WithOr(e.conds) != [] {
      ConjoinHolds(t, ctx, WithOr(e.conds), row);
      assert TextTree(e) == Some(Conjoin(WithOr(e.conds)));
    }
  }

  /** The tree is the conjunction of its two parts. */
  lemma RoutesCoverTree(t: Thruk, ctx: Context, e: Node, row: Row)
    ensures Holds(t, ctx, e, row) <==>
      AllHold(t, ctx, BracketLeaves(e), row) && (TextTree(e).Some? ==> Holds(t, ctx, TextTree(e).value, row))
  {
    if !HasOr(e) {
      AndTreeIsItsLeaves(t, ctx, e, row);
      assert TextTree(e).None? && BracketLeaves(e) == Leaves(e);
      assert AllHold(t, ctx, Leaves(e), row) <==> Holds(t, ctx, e, row);
    } else if e.isOr {
      assert TextTree(e) == Some(e) && BracketLeaves(e) == [];
      assert AllHold(t, ctx, [], row);
    } else {
      HybridCoversTree(t, ctx, e, row);
    }
  }

  lemma PartsAreWellFormed(e: Node)
    requires WellFormed(e) && NoGroupIn(e)
    ensures forall l :: l in BracketLeaves(e) ==> l.Leaf? && WellFormed(l) && NoGroupIn(l)
    ensures TextTree(e).Some? ==> WellFormed(TextTree(e).value) && NoGroupIn(TextTree(e).value)
  {
    if e.Group? {
      PartsOfList(e.conds);
    }
    forall l | l in BracketLeaves(e) ensures l.Leaf? && WellFormed(l) && NoGroupIn(l) {
      if !HasOr(e) {
        LeavesAreLeaves(e, l);
      } else if e.Group? && !e.isOr {
        LeavesOfAreLeaves(OrFree(e.conds), l);
      }
    }
  }

  /** The conditions the router looks at: those of a root AND, or the root itself. */
  function Kids(n: Node): seq<Node> {
    if n.Group? && !n.isOr then n.conds else [n]
  }

  lemma {:induction false} AllOrFree(conds: seq<Node>)
    requires forall c :: c in conds ==> !HasOr(c)
    ensures OrFree(conds) == conds && WithOr(conds) == []
  {
    if conds == [] {
    } else {
      AllOrFree(conds[1..]);
    }
  }

  /** All routes in one: leaves of the conditions without OR, and the conjunction of the others. */
  lemma RoutesOfKids(e: Node)
    ensures BracketLeaves(e) == LeavesOf(OrFree(Kids(e)))
    ensures TextTree(e) == if WithOr(Kids(e)) == [] then None else Some(Conjoin(WithOr(Kids(e))))
  {
    assert [e][1..] == [];
    if e.Leaf? || e.isOr {
      assert OrFree([]) == [] && WithOr([]) == [] && LeavesOf([]) == [];
      if !HasOr(e) {
        assert OrFree([e]) == [e] && LeavesOf([e]) == Leaves(e) + [];
      } else {
        assert WithOr([e]) == [e];
      }
    } else if !HasOr(e) {
      AllOrFree(e.conds);
    }
  }

  lemma KidsExpand(n: Node)
    ensures Kids(Expand(n)) == ExpandAll(Kids(n))
  {
    if !(n.Group? && !n.isOr) {
      assert [n][1..] == [] && ExpandAll([]) == [];
    }
  }

  lemma {:induction false} ExpandAllMembers(conds: seq<Node>)
    ensures forall e :: e in ExpandAll(conds) ==> exists c :: c in conds && e == Expand(c)
    ensures forall c :: c in conds ==> Expand(c) in ExpandAll(conds)
  {
    if conds == [] {
    } else {
      ExpandAllMembers(conds[1..]);
      assert conds == [conds[0]] + conds[1..];
      forall e | e in ExpandAll(conds) ensures exists c :: c in conds && e == Expand(c) {
        if e == Expand(conds[0]) {
          assert conds[0] in conds;
        } else {
          var c :| c in conds[1..] && e == Expand(c);
          assert c in conds;
        }
      }
    }
  }

  lemma {:induction false} ToQsMembers(ctx: Context, conds: seq<Node>)
    ensures forall c :: c in conds ==> ToQ(ctx, c) in ToQs(ctx, conds)
    ensures forall q :: q in ToQs(ctx, conds) ==> exists c :: c in conds && q == ToQ(ctx, c)
  {
    if conds == [] {
    } else {
      ToQsMembers(ctx, conds[1..]);
      assert conds == [conds[0]] + conds[1..];
      forall q | q in ToQs(ctx, conds) ensures exists c :: c in conds && q == ToQ(ctx, c) {
        if q == ToQ(ctx, conds[0]) {
          assert conds[0] in conds;
        } else {
          var c :| c in conds[1..] && q == ToQ(ctx, c);
          assert c in conds;
        }
      }
    }
  }

  /** The text of several conditions means that each of them does. */
  lemma ConjoinMeans(ctx: Context, nodes: seq<Node>, holds: QAtom -> bool)
    requires nodes != []
    ensures Q.Means(ToQ(ctx, Conjoin(nodes)), holds) <==> forall c :: c in nodes ==> Q.Means(ToQ(ctx, c), holds)
  {
    ToQsMembers(ctx, nodes);
    if |nodes| == 1 {
      forall c ensures c in nodes <==> c == nodes[0] {}
    } else {
      assert ToQ(ctx, Conjoin(nodes)) == Q.QGroup(false, ToQs(ctx, nodes));
    }
  }

  lemma {:induction false} LeavesOfMember(conds: seq<Node>, l: Node)
    ensures l in LeavesOf(conds) <==> exists c :: c in conds && l in Leaves(c)
  {
    if conds == [] {
    } else {
      LeavesOfMember(conds[1..], l);
      assert conds == [conds[0]] + conds[1..];
      if l in Leaves(conds[0]) {
        assert conds[0] in conds;
      } else if c :| c in conds && l in Leaves(c) {
        assert c in conds[1..];
        assert l in LeavesOf(conds[1..]);
      }
    }
  }

  lemma ConjoinLeaves(nodes: seq<Node>, l: Node)
    requires nodes != [] && l in Leaves(Conjoin(nodes))
    ensures exists c :: c in nodes && l in Leaves(c)
  {
    if |nodes| == 1 {
      assert nodes[0] in nodes;
    } else {
      LeavesOfMember(nodes, l);
    }
  }

  // ---- The compiled query against the tree ---------------------------------------------------------

  /** A leaf of the bracket route whose parameter loses no row. */
  predicate KeepsRows(ctx: Context, l: Node) {
    l.Leaf? && (FaithfulBracket(ctx, l.field, l.op, l.value) || (IsText(l.field) && l.op == In))
  }

  predicate FaithfulBracketNode(ctx: Context, l: Node) {
    l.Leaf? && FaithfulBracket(ctx, l.field, l.op, l.value)
  }

  /** The `q=` route's leaves are all faithful. */
  ghost predicate FaithfulTextTree(ctx: Context, e: Node) {
    TextTree(e).Some? ==> forall l :: l in Leaves(TextTree(e).value) ==> FaithfulTextNode(ctx, l)
  }

  lemma TextTreeExact(t: Thruk, ctx: Context, andFirst: bool, n: Node, row: Row)
    requires WellFormed(n) && Compile(ctx, n).Ok? && FaithfulTextTree(ctx, Expand(n))
    ensures var query, e := Compile(ctx, n).value, Expand(n);
      Selects(t, ctx, andFirst, query, row) <==>
        && ParamsHold(t, ctx, query.params, row)
        && (TextTree(e).Some? ==> Holds(t, ctx, TextTree(e).value, row))
  {
    var e := Expand(n);
    CompileSplits(ctx, n);
    ExpandKeepsMeaning(t, ctx, n, row);
    PartsAreWellFormed(e);
    if TextTree(e).Some? {
      BuildQSelects(t, ctx, andFirst, TextTree(e).value, row);
    }
  }

  /** No row is lost: whatever the route and the reader's precedence, a row the tree selects is selected
      by the compiled query, overwritten keys or not. */
  lemma NoRowLost(t: Thruk, ctx: Context, andFirst: bool, n: Node, row: Row)
    requires WellFormed(n) && Compile(ctx, n).Ok?
    requires FaithfulTextTree(ctx, Expand(n)) && forall l :: l in BracketLeaves(Expand(n)) ==> KeepsRows(ctx, l)
    requires Holds(t, ctx, n, row)
    ensures Selects(t, ctx, andFirst, Compile(ctx, n).value, row)
  {
    var e := Expand(n);
    CompileSplits(ctx, n);
    TextTreeExact(t, ctx, andFirst, n, row);
    ExpandKeepsMeaning(t, ctx, n, row);
    RoutesCoverTree(t, ctx, e, row);
    PartsAreWellFormed(e);
    forall l | l in BracketLeaves(e) ensures LeafParamHolds(t, ctx, l, row) {
      LeafKeysAreIn(ctx, map[], BracketLeaves(e), l);
      KeptRow(t, ctx, l, row);
    }
    LeavesThenParams(t, ctx, BracketLeaves(e), row);
  }

  lemma KeptRow(t: Thruk, ctx: Context, l: Node, row: Row)
    requires KeepsRows(ctx, l) && WellFormed(l) && ParamOf(ctx, l).Ok? && Holds(t, ctx, l, row)
    ensures LeafParamHolds(t, ctx, l, row)
  {
    if FaithfulBracket(ctx, l.field, l.op, l.value) {
      BracketLeafExact(t, ctx, l.field, l.op, l.value, row);
    } else {
      TextInKeepsRows(t, ctx, l.field, l.value, row);
    }
  }

  /** Exactly what the compiled query selects: the rows that satisfy the `q=` part and every bracket leaf
      not overwritten by a later one. */
  lemma SelectsSurvivors(t: Thruk, ctx: Context, andFirst: bool, n: Node, row: Row)
    requires WellFormed(n) && Compile(ctx, n).Ok?
    requires FaithfulTextTree(ctx, Expand(n))
    requires forall l :: l in BracketLeaves(Expand(n)) ==> FaithfulBracketNode(ctx, l)
    ensures Selects(t, ctx, andFirst, Compile(ctx, n).value, row) <==>
      && (forall l :: l in Survivors(ctx, BracketLeaves(Expand(n))) ==> Holds(t, ctx, l, row))
      && (TextTree(Expand(n)).Some? ==> Holds(t, ctx, TextTree(Expand(n)).value, row))
  {
    var e := Expand(n);
    CompileSplits(ctx, n);
    TextTreeExact(t, ctx, andFirst, n, row);
    ExpandKeepsMeaning(t, ctx, n, row);
    PartsAreWellFormed(e);
    ParamsAreSurvivors(t, ctx, BracketLeaves(e), row);
    SurvivorsAreLeaves(ctx, BracketLeaves(e));
    forall l | l in Survivors(ctx, BracketLeaves(e)) ensures LeafParamHolds(t, ctx, l, row) <==> Holds(t, ctx, l, row) {
      LeafKeysAreIn(ctx, map[], BracketLeaves(e), l);
      BracketLeafExact(t, ctx, l.field, l.op, l.value, row);
    }
  }

  /** Without a clash of keys the compiled query selects exactly the tree's rows. */
  lemma CompileKeepsMeaning(t: Thruk, ctx: Context, andFirst: bool, n: Node, row: Row)
    requires WellFormed(n) && Compile(ctx, n).Ok? && NoClash(ctx, BracketLeaves(Expand(n)))
    requires FaithfulTextTree(ctx, Expand(n))
    requires forall l :: l in BracketLeaves(Expand(n)) ==> FaithfulBracketNode(ctx, l)
    ensures Selects(t, ctx, andFirst, Compile(ctx, n).value, row) <==> Holds(t, ctx, n, row)
  {
    var e := Expand(n);
    if Selects(t, ctx, andFirst, Compile(ctx, n).value, row) {
      CompileSplits(ctx, n);
      TextTreeExact(t, ctx, andFirst, n, row);
      ExpandKeepsMeaning(t, ctx, n, row);
      PartsAreWellFormed(e);
      forall l | l in BracketLeaves(e) ensures Holds(t, ctx, l, row) {
        ParamsThenLeaf(t, ctx, BracketLeaves(e), row, l);
        BracketLeafExact(t, ctx, l.field, l.op, l.value, row);
      }
      RoutesCoverTree(t, ctx, e, row);
    } else if Holds(t, ctx, n, row) {
      NoRowLost(t, ctx, andFirst, n, row);
    }
  }

  predicate IsStateRegex(l: Node) {
    l.Leaf? && l.field == State && l.op == Regex
  }

  /** The compiler raises exactly when a regular expression on the state would become a parameter. */
  lemma CompileRaisesExactly(ctx: Context, n: Node)
    requires WellFormed(n)
    ensures Compile(ctx, n).FilterError? <==> exists l :: l in BracketLeaves(Expand(n)) && IsStateRegex(l)
  {
    CompileSplits(ctx, n);
    ExpandIsWellFormed(n);
    PartsAreWellFormed(Expand(n));
    RaisesExactly(ctx, map[], BracketLeaves(Expand(n)));
  }

  lemma ExpandIsWellFormed(n: Node)
    requires WellFormed(n)
    ensures WellFormed(Expand(n)) && NoGroupIn(Expand(n))
  {
    ExpandKeepsMeaning(Thruk((a, b) => true, (a, b) => true, s => 0, (v, i) => true), Hosts, n,
                       Row(map[], 0, 0, {}, {}, map[], map[]));
  }

  lemma {:induction false} RaisesExactly(ctx: Context, params: Params, leaves: seq<Node>)
    requires forall l :: l in leaves ==> l.Leaf? && WellFormed(l) && NoGroupIn(l)
    ensures AddLeaves(ctx, params, leaves).FilterError? <==> exists l :: l in leaves && IsStateRegex(l)
    decreases |leaves|
  {
    if leaves == [] {
    } else {
      assert leaves == [leaves[0]] + leaves[1..];
      LeafRaisesExactly(ctx, leaves[0]);
      if ParamOf(ctx, leaves[0]).Ok? {
        var (k, p) := ParamOf(ctx, leaves[0]).value;
        RaisesExactly(ctx, params[k := p], leaves[1..]);
      }
    }
  }

  lemma LeafRaisesExactly(ctx: Context, l: Node)
    requires l.Leaf? && WellFormed(l) && NoGroupIn(l)
    ensures ParamOf(ctx, l).FilterError? <==> IsStateRegex(l)
  {
  }

  // ---- The condition is exact ----------------------------------------------------------------------

  /** An equality on a plain column, a custom variable or a state with a code, or membership of one group. */
  predicate IsEquality(ctx: Context, l: Node) {
    && l.Leaf? && l.op == Eq
    && (if IsCv(l.field) then l.value.Variable? && FaithfulVariable(ctx, l.field, Eq, l.value)
        else
          && l.value.One?
          && (IsText(l.field) || IsGroupField(l.field) || (l.field == State && StateCode(ctx, l.value.s).Some?)))
  }

  function GivenText(p: Param): string {
    if p.Given? && p.v.One? then p.v.s else ""
  }

  function OnlyGroup(params: Params, c: Column): set<string> {
    if Key(c, GteOp) in params then {GivenText(params[Key(c, GteOp)])} else {}
  }

  /** The names of the variables asked for with a prefix, the prefix taken off. */
  function VariablesAsked(params: Params, prefix: string): set<string> {
    set k | k in params && k.column.VarCol? && prefix <= k.column.name :: k.column.name[|prefix|..]
  }

  function ValuesAsked(params: Params, prefix: string): map<string, string> {
    map name | name in VariablesAsked(params, prefix) && Key(VarCol(prefix + name), Plain) in params
      :: GivenText(params[Key(VarCol(prefix + name), Plain)])
  }

  function StateAsked(params: Params): int {
    var k := Key(StateCol, Plain);
    if k in params && params[k].StateParam? && ArgCode(params[k].arg).Some? then ArgCode(params[k].arg).value else 0
  }

  /** The row that has just what the parameters ask for. */
  function Asked(params: Params): Row {
    Row(map f | f in {Name, Address, Host, Service, Description, Message, Contact} && Key(TextCol(f), Plain) in params
          :: GivenText(params[Key(TextCol(f), Plain)]),
        StateAsked(params), 0, OnlyGroup(params, GroupsCol), OnlyGroup(params, HostGroupsCol),
        ValuesAsked(params, ""), ValuesAsked(params, HOST_PREFIX))
  }

  /** What equalities put under a key: a code for the state, a text elsewhere. */
  predicate IsAsked(k: Key, p: Param) {
    if k.column.StateCol? then p.StateParam? && p.arg.Code? else p.Given? && p.v.One?
  }

  lemma EqualityAsks(ctx: Context, l: Node)
    requires IsEquality(ctx, l)
    ensures ParamOf(ctx, l).Ok? && IsAsked(ParamOf(ctx, l).value.0, ParamOf(ctx, l).value.1)
    ensures ShapeOk(l.field, l.op, l.value) && FaithfulBracket(ctx, l.field, l.op, l.value)
  {
    if l.field == State {
      StateArgIsCode(ctx, l.value.s);
    }
  }

  lemma AskedValue(params: Params, prefix: string, name: string)
    requires Key(VarCol(prefix + name), Plain) in params
    ensures Lookup(ValuesAsked(params, prefix), name) == GivenText(params[Key(VarCol(prefix + name), Plain)])
  {
    var k := Key(VarCol(prefix + name), Plain);
    assert k.column.name[|prefix|..] == name;
    assert name in VariablesAsked(params, prefix);
  }

  lemma AskedVariable(t: Thruk, ctx: Context, params: Params, l: Node)
    requires IsEquality(ctx, l) && IsCv(l.field) && ParamOf(ctx, l).Ok? && ParamOf(ctx, l).value.0 in params
    requires IsAsked(ParamOf(ctx, l).value.0, params[ParamOf(ctx, l).value.0])
    ensures Holds(t, ctx, l, Asked(params)) <==> params[ParamOf(ctx, l).value.0] == ParamOf(ctx, l).value.1
  {
    var name := Upper(l.value.name);
    if l.field == HostCustomVar {
      AskedValue(params, HOST_PREFIX, name);
    } else {
      assert "" + name == name;
      AskedValue(params, "", name);
    }
  }

  lemma AskedState(t: Thruk, ctx: Context, params: Params, l: Node)
    requires IsEquality(ctx, l) && l.field == State && ParamOf(ctx, l).Ok? && ParamOf(ctx, l).value.0 in params
    requires IsAsked(ParamOf(ctx, l).value.0, params[ParamOf(ctx, l).value.0])
    ensures Holds(t, ctx, l, Asked(params)) <==> params[ParamOf(ctx, l).value.0] == ParamOf(ctx, l).value.1
  {
    StateArgIsCode(ctx, l.value.s);
    EqualityAsks(ctx, l);
  }

  /** The row asked for meets its leaves' parameters, and meets a leaf only if that leaf survived. */
  lemma AskedMeets(t: Thruk, ctx: Context, params: Params, l: Node)
    requires IsEquality(ctx, l) && ParamOf(ctx, l).Ok? && ParamOf(ctx, l).value.0 in params
    requires IsAsked(ParamOf(ctx, l).value.0, params[ParamOf(ctx, l).value.0])
    ensures Holds(t, ctx, l, Asked(params)) <==> params[ParamOf(ctx, l).value.0] == ParamOf(ctx, l).value.1
  {
    if IsCv(l.field) {
      AskedVariable(t, ctx, params, l);
    } else if l.field == State {
      AskedState(t, ctx, params, l);
    }
  }

  lemma AskedIsSelected(t: Thruk, ctx: Context, leaves: seq<Node>)
    requires AddLeaves(ctx, map[], leaves).Ok? && forall l :: l in leaves ==> IsEquality(ctx, l)
    ensures ParamsHold(t, ctx, AddLeaves(ctx, map[], leaves).value, Asked(AddLeaves(ctx, map[], leaves).value))
  {
    var m := AddLeaves(ctx, map[], leaves).value;
    forall k | k in m ensures ParamHolds(t, ctx, k, m[k], Asked(m)) {
      var l := EntryComesFromLeaf(ctx, leaves, k);
      EqualityAsks(ctx, l);
      AskedMeets(t, ctx, m, l);
      BracketLeafExact(t, ctx, l.field, l.op, l.value, Asked(m));
    }
  }

  /** A leaf the row asked for meets has its parameter in the dictionary. */
  lemma MetLeafSurvives(t: Thruk, ctx: Context, leaves: seq<Node>, l: Node)
    requires AddLeaves(ctx, map[], leaves).Ok? && l in leaves && forall m :: m in leaves ==> IsEquality(ctx, m)
    requires Holds(t, ctx, l, Asked(AddLeaves(ctx, map[], leaves).value))
    ensures var m := AddLeaves(ctx, map[], leaves).value;
      && ParamOf(ctx, l).Ok? && ParamOf(ctx, l).value.0 in m
      && ParamOf(ctx, l).value.1 == m[ParamOf(ctx, l).value.0]
  {
    var m := AddLeaves(ctx, map[], leaves).value;
    LeafKeysAreIn(ctx, map[], leaves, l);
    var o := EntryComesFromLeaf(ctx, leaves, ParamOf(ctx, l).value.0);
    EqualityAsks(ctx, o);
    AskedMeets(t, ctx, m, l);
  }

  /** If the row asked for meets every leaf, no two leaves clash. */
  lemma MeetsAllThenNoClash(t: Thruk, ctx: Context, leaves: seq<Node>)
    requires AddLeaves(ctx, map[], leaves).Ok? && forall l :: l in leaves ==> IsEquality(ctx, l)
    requires AllHold(t, ctx, leaves, Asked(AddLeaves(ctx, map[], leaves).value))
    ensures NoClash(ctx, leaves)
  {
    forall a, b | a in leaves && b in leaves && SameKey(ctx, a, b) ensures ParamOf(ctx, a) == ParamOf(ctx, b) {
      MetLeafSurvives(t, ctx, leaves, a);
      MetLeafSurvives(t, ctx, leaves, b);
    }
  }

  /** For conjunctions of equalities the compiled query selects the tree's rows, on every data set, if and
      only if no two of its leaves ask the same key for different values. */
  lemma ExactIfAndOnlyIfNoClash(t: Thruk, ctx: Context, andFirst: bool, n: Node)
    requires WellFormed(n) && !HasOr(Expand(n)) && Compile(ctx, n).Ok?
    requires forall l :: l in Leaves(Expand(n)) ==> IsEquality(ctx, l)
    ensures (forall row :: Selects(t, ctx, andFirst, Compile(ctx, n).value, row) <==> Holds(t, ctx, n, row))
        <==> NoClash(ctx, Leaves(Expand(n)))
  {
    var leaves := Leaves(Expand(n));
    CompileSplits(ctx, n);
    if NoClash(ctx, leaves) {
      forall l | l in leaves ensures FaithfulBracketNode(ctx, l) {
        EqualityAsks(ctx, l);
      }
      forall row ensures Selects(t, ctx, andFirst, Compile(ctx, n).value, row) <==> Holds(t, ctx, n, row) {
        CompileKeepsMeaning(t, ctx, andFirst, n, row);
      }
    }
    if forall row :: Selects(t, ctx, andFirst, Compile(ctx, n).value, row) <==> Holds(t, ctx, n, row) {
      var row := Asked(AddLeaves(ctx, map[], leaves).value);
      AskedIsSelected(t, ctx, leaves);
      assert Selects(t, ctx, andFirst, Compile(ctx, n).value, row);
      ExpandKeepsMeaning(t, ctx, n, row);
      RoutesCoverTree(t, ctx, Expand(n), row);
      MeetsAllThenNoClash(t, ctx, leaves);
    }
  }

  // ---- Where the leaf conditions come from -----------------------------------------------------------

  /** The operator of a variable and of a time bound is ignored. */
  lemma OperatorIsIgnored(ctx: Context, f: Field, op: Op, v: Value)
    requires if IsCv(f) then v.Variable? else f in {Since, Until} && v.One?
    ensures LeafParam(ctx, f, op, v) == LeafParam(ctx, f, Eq, v) && AtomFor(ctx, f, op, v) == AtomFor(ctx, f, Eq, v)
  {
  }

  /** `in` on a plain field adds exactly the rows whose text contains an item without being one. */
  lemma TextInExactly(t: Thruk, ctx: Context, f: Field, items: seq<string>, row: Row)
    requires IsText(f) && items != []
    ensures var l := Leaf(f, In, Many(items));
      LeafParamHolds(t, ctx, l, row) && !Holds(t, ctx, l, row) <==>
        TextOf(row, f) !in items && exists i :: 0 <= i < |items| && Occurs(items[i], TextOf(row, f))
  {
    if TextOf(row, f) in items {
      var i :| 0 <= i < |items| && items[i] == TextOf(row, f);
      assert OneHolds(t, ctx, f, Eq, items[i], row);
    }
  }

  /** Outside services a service state name keeps its meaning as a parameter, but not in the `q=` text. */
  lemma ServiceNameInText(t: Thruk, ctx: Context, s: string, row: Row)
    requires ctx != Services && SvcStateInt(Lower(s)).Some? && HostStateInt(Lower(s)).None? && !IsDigits(s)
    ensures AtomHolds(t, ctx, AtomFor(ctx, State, Eq, One(s)), row) <==> t.odd(One(s), row.state)
    ensures LeafParamHolds(t, ctx, Leaf(State, Eq, One(s)), row) <==> row.state == SvcStateInt(Lower(s)).value
  {
    StateArgIsCode(ctx, s);
  }

  /** The text handed to Thruk is wrapped in parentheses, which it rejects, exactly when the tree printed
      has no two conditions of its own and boils down to anything but one plain leaf. */
  lemma TextIsWrappedExactly(ctx: Context, n: Node)
    requires WellFormed(n) && TextTree(Expand(n)).Some?
    ensures var q := ToQ(ctx, TextTree(Expand(n)).value);
      Q.Enclosed(BuildQ(ctx, TextTree(Expand(n)).value)) <==> !(q.QGroup? && |q.conds| >= 2) && !Q.Core(q).QLeaf?
  {
    ExpandIsWellFormed(n);
    PartsAreWellFormed(Expand(n));
    ToQNonEmpty(ctx, TextTree(Expand(n)).value);
    Q.RootIsWrappedExactly(ToQ(ctx, TextTree(Expand(n)).value));
  }

  lemma PairStays(a: Node, b: Node)
    requires a.Leaf? && b.Leaf? && a.op == Eq && b.op == Eq
    ensures ExpandAll([a]) == [a] && ExpandAll([a, b]) == [a, b]
  {
    assert [a][1..] == [] && [a, b][1..] == [b] && [b][1..] == [];
    assert ExpandAll([]) == [];
    assert ExpandAll([b]) == [b];
  }

  /** The dictionary of a pair of leaves. */
  function PairOf(ctx: Context, a: Node, b: Node): Params {
    match (ParamOf(ctx, a), ParamOf(ctx, b))
    case (Ok((j, p)), Ok((k, q))) => map[j := p][k := q]
    case other => map[]
  }

  lemma PairParams(ctx: Context, a: Node, b: Node)
    requires a.Leaf? && b.Leaf? && ParamOf(ctx, a).Ok? && ParamOf(ctx, b).Ok?
    ensures AddLeaves(ctx, map[], [a, b]) == Ok(PairOf(ctx, a, b))
  {
    var (j, p) := ParamOf(ctx, a).value;
    assert [a, b][1..] == [b] && [b][1..] == [];
    assert AddLeaves(ctx, PairOf(ctx, a, b), []) == Ok(PairOf(ctx, a, b));
    assert AddLeaves(ctx, map[j := p], [b]) == Ok(PairOf(ctx, a, b));
  }

  lemma PairLeaves(a: Node, b: Node)
    requires a.Leaf? && b.Leaf?
    ensures Leaves(Group(false, [a, b])) == [a, b] && !HasOr(Group(false, [a, b]))
  {
    assert [a, b][1..] == [b] && [b][1..] == [];
    assert LeavesOf([]) == [] && LeavesOf([b]) == [b] + [];
    assert LeavesOf([a, b]) == [a] + [b] == [a, b];
  }

  lemma CompiledPair(ctx: Context, a: Node, b: Node)
    requires a.Leaf? && b.Leaf? && a.op == Eq && b.op == Eq && ParamOf(ctx, a).Ok? && ParamOf(ctx, b).Ok?
    ensures Compile(ctx, Group(false, [a, b])) == Ok(Query(PairOf(ctx, a, b), None))
  {
    PairStays(a, b);
    PairLeaves(a, b);
    PairParams(ctx, a, b);
    CompileSplits(ctx, Group(false, [a, b]));
  }

  /** Two host groups joined by AND: a row in the second group alone is selected. */
  lemma TwoGroupsLoseOne(t: Thruk, ctx: Context, andFirst: bool)
    ensures var n := Group(false, [Leaf(Hostgroup, Eq, One("A")), Leaf(Hostgroup, Eq, One("B"))]);
      var row := Row(map[], 0, 0, {"B"}, {"B"}, map[], map[]);
      && Compile(ctx, n).Ok? && Selects(t, ctx, andFirst, Compile(ctx, n).value, row) && !Holds(t, ctx, n, row)
  {
    var a, b := Leaf(Hostgroup, Eq, One("A")), Leaf(Hostgroup, Eq, One("B"));
    var n := Group(false, [a, b]);
    var row := Row(map[], 0, 0, {"B"}, {"B"}, map[], map[]);
    CompiledPair(ctx, a, b);
    SecondGroupMeets(t, ctx, row);
    assert !Holds(t, ctx, a, row) && a in n.conds;
  }

  lemma SecondGroupMeets(t: Thruk, ctx: Context, row: Row)
    requires GroupsOf(ctx, Hostgroup, row) == {"B"}
    ensures ParamsHold(t, ctx, PairOf(ctx, Leaf(Hostgroup, Eq, One("A")), Leaf(Hostgroup, Eq, One("B"))), row)
  {
  }

  /** One condition under OR, itself an AND of two: the text is wrapped. Host filters allow this tree. */
  lemma GroupOfOneIsWrapped(ctx: Context, compiles: string -> bool)
    ensures var n := Group(true, [Group(false, [Leaf(Name, Eq, One("a")), Leaf(Address, Eq, One("b"))])]);
      && Valid(n, {Name, State, Hostgroup, CustomVar, Address}, compiles, 0)
      && TextTree(Expand(n)).Some? && Q.Enclosed(BuildQ(ctx, TextTree(Expand(n)).value))
  {
    PairUnderOrIsWrapped(ctx, compiles, Leaf(Name, Eq, One("a")), Leaf(Address, Eq, One("b")));
  }

  lemma PairUnderOrIsWrapped(ctx: Context, compiles: string -> bool, a: Node, b: Node)
    requires a.Leaf? && b.Leaf? && a.op == Eq && b.op == Eq
    requires ValidLeaf(a.field, Eq, a.value, FIELDS_HOSTS, compiles)
    requires ValidLeaf(b.field, Eq, b.value, FIELDS_HOSTS, compiles)
    ensures var n := Group(true, [Group(false, [a, b])]);
      && Valid(n, FIELDS_HOSTS, compiles, 0)
      && TextTree(Expand(n)).Some? && Q.Enclosed(BuildQ(ctx, TextTree(Expand(n)).value))
  {
    var inner := Group(false, [a, b]);
    var n := Group(true, [inner]);
    assert Valid(inner, FIELDS_HOSTS, compiles, 1) && Valid(n, FIELDS_HOSTS, compiles, 0);
    ValidIsWellFormed(n, FIELDS_HOSTS, compiles, 0);
    InnerPairStays(inner);
    TextIsWrappedExactly(ctx, n);
    assert ToQs(ctx, [inner]) == [ToQ(ctx, inner)];
    assert |ToQs(ctx, [a, b])| == 2;
  }

  lemma InnerPairStays(inner: Node)
    requires inner.Group? && |inner.conds| == 2 && forall c :: c in inner.conds ==> c.Leaf? && c.op == Eq
    ensures Expand(Group(true, [inner])) == Group(true, [inner])
  {
    var a, b := inner.conds[0], inner.conds[1];
    assert inner.conds == [a, b];
    PairStays(a, b);
    assert [inner][1..] == [] && ExpandAll([]) == [];
    assert ExpandAll([inner]) == [inner];
  }
}
