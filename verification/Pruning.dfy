/** `_strip_filter_field` (inventory.py): a filter tree without its leaves on one field.

    Stripping two fields one after the other is stripping both at once: that is where its other laws come
    from. */
module Pruning {
  import opened Basics
  import opened FilterTree
  import opened FilterMeaning
  import opened ParamDictionary

  /** What a group becomes: nothing, its one child, or a group of what is left. */
  function Regroup(isOr: bool, kept: seq<Node>): Option<Node> {
    if kept == [] then None else if |kept| == 1 then Some(kept[0]) else Some(Group(isOr, kept))
  }

  /** The tree without its leaves on any of `fields`. */
  function Prune(fields: set<Field>, n: Node): Option<Node>
    decreases n, 1
  {
    match n
    case Leaf(f, _, _) => if f in fields then None else Some(n)
    case Group(isOr, conds) => Regroup(isOr, PruneAll(fields, conds))
  }

  function PruneAll(fields: set<Field>, conds: seq<Node>): seq<Node>
    decreases conds, 0
  {
    if conds == [] then []
    else (match Prune(fields, conds[0]) case None => [] case Some(c) => [c]) + PruneAll(fields, conds[1..])
  }

  lemma PruneNext(fields: set<Field>, kept: seq<Node>, conds: seq<Node>, i: nat)
    requires i < |conds|
    ensures var rest := PruneAll(fields, conds[i + 1..]);
      kept + PruneAll(fields, conds[i..]) ==
        match Prune(fields, conds[i]) case None => kept + rest case Some(c) => kept + [c] + rest
  {
    assert conds[i..][1..] == conds[i + 1..];
  }

  /** `_strip_filter_field`. */
  method StripFilterField(n: Node, field: Field) returns (r: Option<Node>)
    ensures r == Prune({field}, n)
    decreases n
  {
    if n.Leaf? {
      return if n.field == field then None else Some(n);
    }
    var kept: seq<Node> := [];
    for i := 0 to |n.conds|
      invariant kept + PruneAll({field}, n.conds[i..]) == PruneAll({field}, n.conds)
    {
      PruneNext({field}, kept, n.conds, i);
      var child := StripFilterField(n.conds[i], field);
      if child.Some? {
        kept := kept + [child.value];
      }
    }
    assert n.conds[|n.conds|..] == [] && kept + [] == kept;
    return if kept == [] then None else if |kept| == 1 then Some(kept[0]) else Some(Group(n.isOr, kept));
  }

  // ---- Which leaves are left ---------------------------------------------------------------------------

  /** The leaves on none of the fields, in order. */
  function Without(fields: set<Field>, leaves: seq<Node>): seq<Node> {
    if leaves == [] then []
    else if IsOn(fields, leaves[0]) then Without(fields, leaves[1..])
    else [leaves[0]] + Without(fields, leaves[1..])
  }

  predicate IsOn(fields: set<Field>, l: Node) {
    l.Leaf? && l.field in fields
  }

  function LeavesOrNone(n: Option<Node>): seq<Node> {
    if n.None? then [] else Leaves(n.value)
  }

  lemma {:induction false} WithoutAppends(fields: set<Field>, a: seq<Node>, b: seq<Node>)
    ensures Without(fields, a + b) == Without(fields, a) + Without(fields, b)
  {
    if a == [] {
      assert a + b == b;
    } else {
      assert (a + b)[1..] == a[1..] + b;
      WithoutAppends(fields, a[1..], b);
    }
  }

  lemma RegroupKeepsLeaves(isOr: bool, kept: seq<Node>)
    ensures LeavesOrNone(Regroup(isOr, kept)) == LeavesOf(kept)
  {
    if |kept| == 1 {
      assert kept == [kept[0]] && kept[1..] == [];
      assert Leaves(kept[0]) + [] == Leaves(kept[0]);
    }
  }

  /** The leaves left are exactly those on other fields, in their order. */
  lemma {:induction false} LeavesLeftExactly(fields: set<Field>, n: Node)
    ensures LeavesOrNone(Prune(fields, n)) == Without(fields, Leaves(n))
    decreases n, 1
  {
    match n
    case Leaf(_, _, _) => assert [n][1..] == [];
    case Group(isOr, conds) =>
      LeavesLeftInAll(fields, conds);
      RegroupKeepsLeaves(isOr, PruneAll(fields, conds));
  }

  lemma {:induction false} LeavesLeftInAll(fields: set<Field>, conds: seq<Node>)
    ensures LeavesOf(PruneAll(fields, conds)) == Without(fields, LeavesOf(conds))
    decreases conds, 0
  {
    if conds == [] {
    } else {
      LeavesLeftExactly(fields, conds[0]);
      LeavesLeftInAll(fields, conds[1..]);
      WithoutAppends(fields, Leaves(conds[0]), LeavesOf(conds[1..]));
      var rest := PruneAll(fields, conds[1..]);
      match Prune(fields, conds[0])
      case None => assert PruneAll(fields, conds) == rest;
      case Some(c) => assert ([c] + rest)[1..] == rest;
    }
  }

  lemma {:induction false} WithoutExactly(fields: set<Field>, leaves: seq<Node>, l: Node)
    ensures l in Without(fields, leaves) <==> l in leaves && !IsOn(fields, l)
  {
    if leaves == [] {
    } else {
      WithoutExactly(fields, leaves[1..], l);
      assert leaves == [leaves[0]] + leaves[1..];
    }
  }

  lemma {:induction false} SomeLeafAlways(n: Node)
    requires WellFormed(n)
    ensures Leaves(n) != []
  {
    if n.Leaf? {
    } else {
      SomeLeafAlways(n.conds[0]);
    }
  }

  /** What is left of a well-formed tree is well-formed: no empty group. */
  lemma {:induction false} PruneKeepsWellFormed(fields: set<Field>, n: Node)
    requires WellFormed(n)
    ensures Prune(fields, n).Some? ==> WellFormed(Prune(fields, n).value)
    decreases n, 1
  {
    if n.Leaf? {
    } else {
      PruneAllKeepsWellFormed(fields, n.conds);
    }
  }

  lemma {:induction false} PruneAllKeepsWellFormed(fields: set<Field>, conds: seq<Node>)
    requires forall c :: c in conds ==> WellFormed(c)
    ensures forall c :: c in PruneAll(fields, conds) ==> WellFormed(c)
    decreases conds, 0
  {
    if conds == [] {
    } else {
      PruneKeepsWellFormed(fields, conds[0]);
      PruneAllKeepsWellFormed(fields, conds[1..]);
    }
  }

  /** Nothing is left exactly when every leaf was on one of the fields. */
  lemma NothingLeftExactly(fields: set<Field>, n: Node)
    requires WellFormed(n)
    ensures Prune(fields, n).None? <==> forall l :: l in Leaves(n) ==> IsOn(fields, l)
  {
    var leaves := Leaves(n);
    LeavesLeftExactly(fields, n);
    PruneKeepsWellFormed(fields, n);
    if Prune(fields, n).Some? {
      SomeLeafAlways(Prune(fields, n).value);
      var l := Without(fields, leaves)[0];
      assert l in Without(fields, leaves);
      WithoutExactly(fields, leaves, l);
    } else {
      forall l | l in leaves ensures IsOn(fields, l) {
        WithoutExactly(fields, leaves, l);
      }
    }
  }

  // ---- One field after another -------------------------------------------------------------------------

  function PruneOption(fields: set<Field>, n: Option<Node>): Option<Node> {
    if n.None? then None else Prune(fields, n.value)
  }

  lemma RegroupThenPrune(fields: set<Field>, isOr: bool, kept: seq<Node>)
    ensures PruneOption(fields, Regroup(isOr, kept)) == Regroup(isOr, PruneAll(fields, kept))
  {
    if |kept| == 1 {
      assert kept == [kept[0]] && kept[1..] == [];
      assert PruneAll(fields, []) == [];
    }
  }

  /** Pruning twice is pruning both sets of fields at once. */
  lemma {:induction false} PruneTwice(first: set<Field>, second: set<Field>, n: Node)
    ensures PruneOption(second, Prune(first, n)) == Prune(first + second, n)
    decreases n, 1
  {
    match n
    case Leaf(_, _, _) =>
    case Group(isOr, conds) =>
      PruneAllTwice(first, second, conds);
      RegroupThenPrune(second, isOr, PruneAll(first, conds));
  }

  lemma {:induction false} PruneAllTwice(first: set<Field>, second: set<Field>, conds: seq<Node>)
    ensures PruneAll(second, PruneAll(first, conds)) == PruneAll(first + second, conds)
    decreases conds, 0
  {
    if conds == [] {
    } else {
      PruneTwice(first, second, conds[0]);
      PruneAllTwice(first, second, conds[1..]);
      var rest := PruneAll(first, conds[1..]);
      match Prune(first, conds[0])
      case None => assert PruneAll(first, conds) == rest;
      case Some(c) => assert ([c] + rest)[1..] == rest;
    }
  }

  /** Stripping a field twice is stripping it once. */
  lemma StripIsIdempotent(f: Field, n: Node)
    ensures PruneOption({f}, Prune({f}, n)) == Prune({f}, n)
  {
    PruneTwice({f}, {f}, n);
    assert {f} + {f} == {f};
  }

  /** Two fields may be stripped in either order. */
  lemma StripCommutes(f: Field, g: Field, n: Node)
    ensures PruneOption({g}, Prune({f}, n)) == PruneOption({f}, Prune({g}, n))
  {
    PruneTwice({f}, {g}, n);
    PruneTwice({g}, {f}, n);
    assert {f} + {g} == {g} + {f};
  }

  // ---- Meaning -------------------------------------------------------------------------------------------

  /** Every OR is either removed whole, or each of its conditions leaves something. */
  ghost predicate OrsStayWhole(fields: set<Field>, n: Node) {
    match n
    case Leaf(_, _, _) => true
    case Group(true, conds) =>
      Prune(fields, n).None? || forall c :: c in conds ==> Prune(fields, c).Some? && OrsStayWhole(fields, c)
    case Group(false, conds) => forall c :: c in conds ==> OrsStayWhole(fields, c)
  }

  ghost predicate HoldsIfAny(t: Thruk, ctx: Context, n: Option<Node>, row: Row) {
    n.Some? ==> Holds(t, ctx, n.value, row)
  }

  lemma RegroupHolds(t: Thruk, ctx: Context, kept: seq<Node>, row: Row)
    ensures HoldsIfAny(t, ctx, Regroup(false, kept), row) <==> AllHold(t, ctx, kept, row)
  {
    if |kept| == 1 {
      forall c ensures c in kept <==> c == kept[0] {}
      assert Regroup(false, kept) == Some(kept[0]);
    } else if kept != [] {
      assert Regroup(false, kept) == Some(Group(false, kept));
    }
  }

  lemma RegroupHoldsAny(t: Thruk, ctx: Context, kept: seq<Node>, row: Row)
    requires kept != []
    ensures HoldsIfAny(t, ctx, Regroup(true, kept), row) <==> exists c :: c in kept && Holds(t, ctx, c, row)
  {
    if |kept| == 1 {
      forall c ensures c in kept <==> c == kept[0] {}
      assert Regroup(true, kept) == Some(kept[0]) && kept[0] in kept;
    } else {
      assert Regroup(true, kept) == Some(Group(true, kept));
    }
  }

  lemma {:induction false} PruneAllHas(fields: set<Field>, conds: seq<Node>, c: Node)
    requires c in conds && Prune(fields, c).Some?
    ensures Prune(fields, c).value in PruneAll(fields, conds)
  {
    if c != conds[0] {
      PruneAllHas(fields, conds[1..], c);
    }
  }

  /** Then what is left is implied by the whole: no row is lost. */
  lemma {:induction false} PruneOnlyWidens(t: Thruk, ctx: Context, fields: set<Field>, n: Node, row: Row)
    requires WellFormed(n) && OrsStayWhole(fields, n) && Holds(t, ctx, n, row)
    ensures HoldsIfAny(t, ctx, Prune(fields, n), row)
    decreases n, 1
  {
    match n
    case Leaf(_, _, _) =>
    case Group(true, conds) =>
      if Prune(fields, n).Some? {
        var c :| c in conds && Holds(t, ctx, c, row);
        PruneOnlyWidens(t, ctx, fields, c, row);
        PruneAllHas(fields, conds, c);
        RegroupHoldsAny(t, ctx, PruneAll(fields, conds), row);
      }
    case Group(false, conds) =>
      PruneAllOnlyWidens(t, ctx, fields, conds, row);
      assert AllHold(t, ctx, PruneAll(fields, conds), row);
      RegroupHolds(t, ctx, PruneAll(fields, conds), row);
  }

  lemma {:induction false} PruneAllOnlyWidens(t: Thruk, ctx: Context, fields: set<Field>, conds: seq<Node>, row: Row)
    requires forall c :: c in conds ==> WellFormed(c) && OrsStayWhole(fields, c) && Holds(t, ctx, c, row)
    ensures forall c :: c in PruneAll(fields, conds) ==> Holds(t, ctx, c, row)
    decreases conds, 0
  {
    if conds == [] {
    } else {
      PruneOnlyWidens(t, ctx, fields, conds[0], row);
      PruneAllOnlyWidens(t, ctx, fields, conds[1..], row);
    }
  }

  /** In particular where there is no OR at all. */
  lemma OrFreeOnlyWidens(t: Thruk, ctx: Context, fields: set<Field>, n: Node, row: Row)
    requires WellFormed(n) && !HasOr(n) && Holds(t, ctx, n, row)
    ensures HoldsIfAny(t, ctx, Prune(fields, n), row)
  {
    OrFreeStaysWhole(fields, n);
    PruneOnlyWidens(t, ctx, fields, n, row);
  }

  lemma {:induction false} OrFreeStaysWhole(fields: set<Field>, n: Node)
    requires !HasOr(n)
    ensures OrsStayWhole(fields, n)
  {
    if n.Leaf? {
    } else {
      forall c | c in n.conds ensures OrsStayWhole(fields, c) {
        OrFreeStaysWhole(fields, c);
      }
    }
  }

  /** An OR over leaves on the fields alone is removed whole and costs nothing, as in `AND(hostgroup, OR(servicegroup,
      servicegroup))`. */
  lemma VanishingOrIsHarmless(fields: set<Field>, conds: seq<Node>)
    requires conds != [] && forall c :: c in conds ==> WellFormed(c)
    requires forall l :: l in LeavesOf(conds) ==> IsOn(fields, l)
    ensures OrsStayWhole(fields, Group(true, conds))
  {
    NothingLeftExactly(fields, Group(true, conds));
  }

  /** Each condition on the fields has a row of its own, which meets no condition on another field. */
  ghost predicate Independent(t: Thruk, ctx: Context, fields: set<Field>, conds: seq<Node>) {
    forall l :: l in conds && IsOn(fields, l) ==> exists row :: OwnRow(t, ctx, fields, conds, l, row)
  }

  ghost predicate OwnRow(t: Thruk, ctx: Context, fields: set<Field>, conds: seq<Node>, l: Node, row: Row) {
    Holds(t, ctx, l, row) && forall k :: k in conds && !IsOn(fields, k) ==> !Holds(t, ctx, k, row)
  }

  lemma {:induction false} LeavesPruneToWithout(fields: set<Field>, conds: seq<Node>)
    requires forall c :: c in conds ==> c.Leaf?
    ensures PruneAll(fields, conds) == Without(fields, conds)
  {
    if conds == [] {
    } else {
      LeavesPruneToWithout(fields, conds[1..]);
    }
  }

  /** For an OR of independent leaves the condition is exact: no row is lost if and only if the OR is removed
      whole or stays whole. */
  lemma OrWidensExactly(t: Thruk, ctx: Context, fields: set<Field>, conds: seq<Node>)
    requires conds != [] && (forall c :: c in conds ==> c.Leaf? && WellFormed(c)) && Independent(t, ctx, fields, conds)
    ensures var n := Group(true, conds);
      (forall row :: Holds(t, ctx, n, row) ==> HoldsIfAny(t, ctx, Prune(fields, n), row)) <==> OrsStayWhole(fields, n)
  {
    var n := Group(true, conds);
    if OrsStayWhole(fields, n) {
      forall row | Holds(t, ctx, n, row) ensures HoldsIfAny(t, ctx, Prune(fields, n), row) {
        PruneOnlyWidens(t, ctx, fields, n, row);
      }
    } else {
      var l :| l in conds && !(Prune(fields, l).Some? && OrsStayWhole(fields, l));
      OwnRowIsLost(t, ctx, fields, conds, l);
    }
  }

  lemma OwnRowIsLost(t: Thruk, ctx: Context, fields: set<Field>, conds: seq<Node>, l: Node)
    requires (forall c :: c in conds ==> c.Leaf?) && Independent(t, ctx, fields, conds)
    requires l in conds && IsOn(fields, l) && Prune(fields, Group(true, conds)).Some?
    ensures var n := Group(true, conds);
      exists row :: Holds(t, ctx, n, row) && !HoldsIfAny(t, ctx, Prune(fields, n), row)
  {
    var row :| OwnRow(t, ctx, fields, conds, l, row);
    var kept := PruneAll(fields, conds);
    LeavesPruneToWithout(fields, conds);
    RegroupHoldsAny(t, ctx, kept, row);
    forall k | k in kept ensures !Holds(t, ctx, k, row) {
      WithoutExactly(fields, conds, k);
    }
    assert Holds(t, ctx, Group(true, conds), row);
  }

  /** Host groups and service groups under one OR, as `thruk_totals` takes them, are independent. */
  lemma GroupsAreIndependent(t: Thruk, conds: seq<Node>)
    requires forall c :: c in conds ==> c.Leaf? && c.field in {Hostgroup, Servicegroup} && c.op == Eq && c.value.One?
    ensures Independent(t, Services, {Servicegroup}, conds)
  {
    forall l | l in conds && IsOn({Servicegroup}, l)
      ensures exists row :: OwnRow(t, Services, {Servicegroup}, conds, l, row)
    {
      var row := Row(map[], 0, 0, {l.value.s}, {}, map[], map[]);
      assert OwnRow(t, Services, {Servicegroup}, conds, l, row);
    }
  }

  /** Conversely, a row that meets what is left and every leaf taken out meets the whole, if there is no OR. */
  lemma NothingElseIsTaken(t: Thruk, ctx: Context, fields: set<Field>, n: Node, row: Row)
    requires WellFormed(n) && !HasOr(n)
    ensures Holds(t, ctx, n, row) <==>
      && HoldsIfAny(t, ctx, Prune(fields, n), row)
      && forall l :: l in Leaves(n) && IsOn(fields, l) ==> Holds(t, ctx, l, row)
  {
    var leaves := Leaves(n);
    AndTreeIsItsLeaves(t, ctx, n, row);
    LeavesLeftExactly(fields, n);
    PruneKeepsNoOr(fields, n);
    if Prune(fields, n).Some? {
      AndTreeIsItsLeaves(t, ctx, Prune(fields, n).value, row);
    }
    forall l ensures l in Without(fields, leaves) <==> l in leaves && !IsOn(fields, l) {
      WithoutExactly(fields, leaves, l);
    }
  }

  lemma {:induction false} PruneKeepsNoOr(fields: set<Field>, n: Node)
    requires !HasOr(n)
    ensures Prune(fields, n).Some? ==> !HasOr(Prune(fields, n).value)
    decreases n, 1
  {
    if n.Leaf? {
    } else {
      PruneAllKeepsNoOr(fields, n.conds);
    }
  }

  lemma {:induction false} PruneAllKeepsNoOr(fields: set<Field>, conds: seq<Node>)
    requires forall c :: c in conds ==> !HasOr(c)
    ensures forall c :: c in PruneAll(fields, conds) ==> !HasOr(c)
    decreases conds, 0
  {
    if conds == [] {
    } else {
      PruneKeepsNoOr(fields, conds[0]);
      PruneAllKeepsNoOr(fields, conds[1..]);
    }
  }

  /** Under OR, pruning narrows: a row in the service group alone is lost. */
  lemma UnderOrRowsAreLost(t: Thruk)
    ensures var n := Group(true, [Leaf(Hostgroup, Eq, One("A")), Leaf(Servicegroup, Eq, One("S"))]);
      var row := Row(map[], 0, 0, {"S"}, {}, map[], map[]);
      Holds(t, Services, n, row) && !HoldsIfAny(t, Services, Prune({Servicegroup}, n), row)
  {
    var a, s := Leaf(Hostgroup, Eq, One("A")), Leaf(Servicegroup, Eq, One("S"));
    var n := Group(true, [a, s]);
    assert s in n.conds && Holds(t, Services, s, Row(map[], 0, 0, {"S"}, {}, map[], map[]));
    assert [a, s][1..] == [s] && [s][1..] == [];
    assert PruneAll({Servicegroup}, []) == [];
    assert PruneAll({Servicegroup}, [s]) == [];
    assert PruneAll({Servicegroup}, [a, s]) == [a] + [];
  }
}
