/** The parameter dictionary of a conjunction: a later leaf with the same key silently replaces an earlier
    one. */
module ParamDictionary {
  import opened FilterTree
  import opened ThrukQuery
  import opened FilterCompiler

  // ---- Dictionaries: what survives an update -------------------------------------------------------

  /** The leaves of a tree, in the order the code meets them. */
  function Leaves(n: Node): seq<Node>
    decreases n, 1
  {
    match n
    case Leaf(_, _, _) => [n]
    case Group(_, conds) => LeavesOf(conds)
  }

  function LeavesOf(conds: seq<Node>): seq<Node>
    decreases conds, 0
  {
    if conds == [] then [] else Leaves(conds[0]) + LeavesOf(conds[1..])
  }

  /** The parameter of a leaf node. */
  function ParamOf(ctx: Context, n: Node): Outcome<(Key, Param)> {
    if n.Leaf? then LeafParam(ctx, n.field, n.op, n.value) else FilterError
  }

  /** The leaves added one after the other, the last one of a key prevailing. */
  function AddLeaves(ctx: Context, params: Params, leaves: seq<Node>): Outcome<Params>
    decreases |leaves|
  {
    if leaves == [] then Ok(params)
    else
      match ParamOf(ctx, leaves[0])
      case FilterError => FilterError
      case Ok((k, p)) => AddLeaves(ctx, params[k := p], leaves[1..])
  }

  lemma {:induction false} AddLeavesTwice(ctx: Context, params: Params, a: seq<Node>, b: seq<Node>)
    ensures AddLeaves(ctx, params, a + b) ==
      match AddLeaves(ctx, params, a) case FilterError => FilterError case Ok(m) => AddLeaves(ctx, m, b)
    decreases |a|
  {
    if a == [] {
      assert a + b == b;
    } else {
      assert (a + b)[1..] == a[1..] + b;
      if ParamOf(ctx, a[0]).Ok? {
        var (k, p) := ParamOf(ctx, a[0]).value;
        AddLeavesTwice(ctx, params[k := p], a[1..], b);
      }
    }
  }

  lemma {:induction false} AddLeavesOnto(ctx: Context, params: Params, more: Params, leaves: seq<Node>)
    ensures AddLeaves(ctx, params + more, leaves) ==
      match AddLeaves(ctx, more, leaves) case FilterError => FilterError case Ok(m) => Ok(params + m)
    decreases |leaves|
  {
    if leaves != [] && ParamOf(ctx, leaves[0]).Ok? {
      var (k, p) := ParamOf(ctx, leaves[0]).value;
      AddLeavesOnto(ctx, params, more[k := p], leaves[1..]);
      assert params + more[k := p] == (params + more)[k := p];
    }
  }

  /** Nested dictionaries make no difference: the result is the leaves added in order. */
  lemma {:induction false} AndParamsAddLeaves(ctx: Context, n: Node)
    ensures AndParams(ctx, n) == AddLeaves(ctx, map[], Leaves(n))
    decreases n, 1
  {
    if n.Leaf? {
      assert Leaves(n)[1..] == [];
    } else {
      UpdateAddsLeaves(ctx, map[], n.conds);
    }
  }

  lemma {:induction false} UpdateAddsLeaves(ctx: Context, params: Params, conds: seq<Node>)
    ensures UpdateWithAll(ctx, params, conds) == AddLeaves(ctx, params, LeavesOf(conds))
    decreases conds, 0
  {
    if conds == [] {
    } else {
      AndParamsAddLeaves(ctx, conds[0]);
      AddLeavesTwice(ctx, params, Leaves(conds[0]), LeavesOf(conds[1..]));
      AddLeavesOnto(ctx, params, map[], Leaves(conds[0]));
      assert params + map[] == params;
      match AndParams(ctx, conds[0])
      case FilterError =>
      case Ok(more) => UpdateAddsLeaves(ctx, params + more, conds[1..]);
    }
  }

  /** Every leaf's key ends up in the dictionary, and every entry comes from a leaf. */
  lemma {:induction false} EntriesComeFromLeaves(ctx: Context, params: Params, leaves: seq<Node>)
    requires AddLeaves(ctx, params, leaves).Ok?
    ensures var m := AddLeaves(ctx, params, leaves).value;
      && (forall k :: k in params ==> k in m)
      && (forall k :: k in m && !(k in params && m[k] == params[k]) ==>
            exists l :: l in leaves && ParamOf(ctx, l) == Ok((k, m[k])))
    decreases |leaves|
  {
    if leaves == [] {
    } else {
      var (k, p) := ParamOf(ctx, leaves[0]).value;
      EntriesComeFromLeaves(ctx, params[k := p], leaves[1..]);
      assert leaves == [leaves[0]] + leaves[1..];
    }
  }

  lemma EntryComesFromLeaf(ctx: Context, leaves: seq<Node>, k: Key) returns (l: Node)
    requires AddLeaves(ctx, map[], leaves).Ok? && k in AddLeaves(ctx, map[], leaves).value
    ensures l in leaves && ParamOf(ctx, l) == Ok((k, AddLeaves(ctx, map[], leaves).value[k]))
  {
    EntriesComeFromLeaves(ctx, map[], leaves);
    l :| l in leaves && ParamOf(ctx, l) == Ok((k, AddLeaves(ctx, map[], leaves).value[k]));
  }

  lemma {:induction false} LeafKeysAreIn(ctx: Context, params: Params, leaves: seq<Node>, l: Node)
    requires AddLeaves(ctx, params, leaves).Ok? && l in leaves
    ensures ParamOf(ctx, l).Ok? && ParamOf(ctx, l).value.0 in AddLeaves(ctx, params, leaves).value
    decreases |leaves|
  {
    var (k, p) := ParamOf(ctx, leaves[0]).value;
    EntriesComeFromLeaves(ctx, params[k := p], leaves[1..]);
    if l != leaves[0] {
      LeafKeysAreIn(ctx, params[k := p], leaves[1..], l);
    }
  }

  predicate SameKey(ctx: Context, a: Node, b: Node) {
    ParamOf(ctx, a).Ok? && ParamOf(ctx, b).Ok? && ParamOf(ctx, a).value.0 == ParamOf(ctx, b).value.0
  }

  /** Leaves with the same key have the same value: nothing is lost by overwriting. */
  ghost predicate NoClash(ctx: Context, leaves: seq<Node>) {
    forall a, b :: a in leaves && b in leaves && SameKey(ctx, a, b) ==> ParamOf(ctx, a) == ParamOf(ctx, b)
  }

  ghost predicate LeafParamHolds(t: Thruk, ctx: Context, l: Node, row: Row) {
    ParamOf(ctx, l).Ok? && ParamHolds(t, ctx, ParamOf(ctx, l).value.0, ParamOf(ctx, l).value.1, row)
  }

  /** If every leaf's parameter holds, so does the dictionary. */
  lemma LeavesThenParams(t: Thruk, ctx: Context, leaves: seq<Node>, row: Row)
    requires AddLeaves(ctx, map[], leaves).Ok?
    requires forall l :: l in leaves ==> LeafParamHolds(t, ctx, l, row)
    ensures ParamsHold(t, ctx, AddLeaves(ctx, map[], leaves).value, row)
  {
    EntriesComeFromLeaves(ctx, map[], leaves);
  }

  /** And back, when no two leaves clash. */
  lemma ParamsThenLeaf(t: Thruk, ctx: Context, leaves: seq<Node>, row: Row, l: Node)
    requires AddLeaves(ctx, map[], leaves).Ok? && NoClash(ctx, leaves) && l in leaves
    requires ParamsHold(t, ctx, AddLeaves(ctx, map[], leaves).value, row)
    ensures LeafParamHolds(t, ctx, l, row)
  {
    LeafKeysAreIn(ctx, map[], leaves, l);
    var o := EntryComesFromLeaf(ctx, leaves, ParamOf(ctx, l).value.0);
    assert SameKey(ctx, o, l);
  }

  // ---- Which leaves survive ------------------------------------------------------------------------

  predicate Overwritten(ctx: Context, l: Node, later: seq<Node>) {
    exists m :: m in later && SameKey(ctx, m, l)
  }

  /** The leaves whose parameter is not replaced by a later one. */
  function Survivors(ctx: Context, leaves: seq<Node>): seq<Node> {
    if leaves == [] then []
    else (if Overwritten(ctx, leaves[0], leaves[1..]) then [] else [leaves[0]]) + Survivors(ctx, leaves[1..])
  }

  lemma {:induction false} SurvivorsAreLeaves(ctx: Context, leaves: seq<Node>)
    ensures forall l :: l in Survivors(ctx, leaves) ==> l in leaves
  {
    if leaves == [] {
    } else {
      SurvivorsAreLeaves(ctx, leaves[1..]);
    }
  }

  /** A key no leaf uses keeps its value; a surviving leaf's value stays. */
  lemma {:induction false} UntouchedKeyStays(ctx: Context, params: Params, leaves: seq<Node>, k: Key)
    requires AddLeaves(ctx, params, leaves).Ok? && k in params
    requires forall m :: m in leaves && ParamOf(ctx, m).Ok? ==> ParamOf(ctx, m).value.0 != k
    ensures k in AddLeaves(ctx, params, leaves).value && AddLeaves(ctx, params, leaves).value[k] == params[k]
    decreases |leaves|
  {
    if leaves == [] {
    } else {
      var (j, p) := ParamOf(ctx, leaves[0]).value;
      assert leaves[0] in leaves;
      UntouchedKeyStays(ctx, params[j := p], leaves[1..], k);
    }
  }

  lemma {:induction false} SurvivorIsEntry(ctx: Context, params: Params, leaves: seq<Node>, l: Node)
    requires AddLeaves(ctx, params, leaves).Ok? && l in Survivors(ctx, leaves)
    ensures var m := AddLeaves(ctx, params, leaves).value;
      ParamOf(ctx, l).Ok? && ParamOf(ctx, l).value.0 in m && m[ParamOf(ctx, l).value.0] == ParamOf(ctx, l).value.1
    decreases |leaves|
  {
    var (k, p) := ParamOf(ctx, leaves[0]).value;
    if l in Survivors(ctx, leaves[1..]) {
      SurvivorIsEntry(ctx, params[k := p], leaves[1..], l);
    } else {
      forall m | m in leaves[1..] && ParamOf(ctx, m).Ok? ensures ParamOf(ctx, m).value.0 != k {
        assert !SameKey(ctx, m, l);
      }
      UntouchedKeyStays(ctx, params[k := p], leaves[1..], k);
    }
  }

  lemma {:induction false} EntryIsSurvivor(ctx: Context, params: Params, leaves: seq<Node>, k: Key)
    requires AddLeaves(ctx, params, leaves).Ok? && k in AddLeaves(ctx, params, leaves).value
    ensures var m := AddLeaves(ctx, params, leaves).value;
      (k in params && m[k] == params[k]) || exists l :: l in Survivors(ctx, leaves) && ParamOf(ctx, l) == Ok((k, m[k]))
    decreases |leaves|
  {
    if leaves == [] {
    } else {
      var (j, p) := ParamOf(ctx, leaves[0]).value;
      var m := AddLeaves(ctx, params, leaves).value;
      EntryIsSurvivor(ctx, params[j := p], leaves[1..], k);
      if l :| l in Survivors(ctx, leaves[1..]) && ParamOf(ctx, l) == Ok((k, m[k])) {
        assert l in Survivors(ctx, leaves);
      } else if k == j {
        if Overwritten(ctx, leaves[0], leaves[1..]) {
          LaterLeafSurvives(ctx, leaves[1..], leaves[0]);
          var l :| l in Survivors(ctx, leaves[1..]) && SameKey(ctx, l, leaves[0]);
          SurvivorIsEntry(ctx, params[j := p], leaves[1..], l);
        } else {
          assert leaves[0] in Survivors(ctx, leaves);
        }
      }
    }
  }

  /** Every key some leaf uses has a survivor. */
  lemma {:induction false} LaterLeafSurvives(ctx: Context, leaves: seq<Node>, l: Node)
    requires Overwritten(ctx, l, leaves)
    ensures exists m :: m in Survivors(ctx, leaves) && SameKey(ctx, m, l)
    decreases |leaves|
  {
    if Overwritten(ctx, l, leaves[1..]) {
      LaterLeafSurvives(ctx, leaves[1..], l);
      var m :| m in Survivors(ctx, leaves[1..]) && SameKey(ctx, m, l);
      assert m in Survivors(ctx, leaves);
    } else {
      var m :| m in leaves && SameKey(ctx, m, l);
      assert m == leaves[0];
      forall x | x in leaves[1..] ensures !SameKey(ctx, x, m) {
        assert !SameKey(ctx, x, l);
      }
      assert m in Survivors(ctx, leaves);
    }
  }

  /** The dictionary says exactly what the surviving leaves say. */
  lemma ParamsAreSurvivors(t: Thruk, ctx: Context, leaves: seq<Node>, row: Row)
    requires AddLeaves(ctx, map[], leaves).Ok?
    ensures ParamsHold(t, ctx, AddLeaves(ctx, map[], leaves).value, row)
        <==> forall l :: l in Survivors(ctx, leaves) ==> LeafParamHolds(t, ctx, l, row)
  {
    var m := AddLeaves(ctx, map[], leaves).value;
    if ParamsHold(t, ctx, m, row) {
      forall l | l in Survivors(ctx, leaves) ensures LeafParamHolds(t, ctx, l, row) {
        SurvivorIsEntry(ctx, map[], leaves, l);
      }
    }
    if forall l :: l in Survivors(ctx, leaves) ==> LeafParamHolds(t, ctx, l, row) {
      forall k | k in m ensures ParamHolds(t, ctx, k, m[k], row) {
        EntryIsSurvivor(ctx, map[], leaves, k);
      }
    }
  }
}
