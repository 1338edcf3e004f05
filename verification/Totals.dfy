/** `thruk_totals` (inventory.py): one filter, stripped of service groups for hosts and rewritten for
    services. */
module Totals {
  import opened Basics
  import opened FilterTree
  import opened ThrukQuery
  import opened FilterCompiler
  import opened ParamDictionary
  import opened FilterMeaning
  import opened Coherence
  import opened Pruning
  import Q = QExpression

  datatype Queries = Refused | Queries(hosts: Query, services: Query)

  const UNFILTERED := Query(map[], None)

  /** The query for hosts: none is left to compile if every leaf is a service group. */
  function HostQuery(n: Node): Outcome<Query> {
    match Prune({Servicegroup}, n)
    case None => Ok(UNFILTERED)
    case Some(p) => Compile(Hosts, p)
  }

  function ServiceQuery(n: Node): Outcome<Query> {
    Compile(Services, Rewrite(n))
  }

  /** What `thruk_totals` sends; the compiler cannot raise on a filter it accepts. */
  method ThrukTotals(filter: Option<Node>, compiles: string -> bool) returns (r: Queries)
    ensures filter.None? ==> r == Queries(UNFILTERED, UNFILTERED)
    ensures filter.Some? && !Valid(filter.value, {Hostgroup, Servicegroup, CustomVar}, compiles, 0) ==> r == Refused
    ensures filter.Some? && Valid(filter.value, {Hostgroup, Servicegroup, CustomVar}, compiles, 0) ==>
      && HostQuery(filter.value).Ok? && ServiceQuery(filter.value).Ok?
      && r == Queries(HostQuery(filter.value).value, ServiceQuery(filter.value).value)
  {
    if filter.None? {
      return Queries(UNFILTERED, UNFILTERED);
    }
    if !Valid(filter.value, FIELDS_TOTALS, compiles, 0) {
      return Refused;
    }
    BothCompile(filter.value, compiles);
    var hosts := UNFILTERED;
    var stripped := StripFilterField(filter.value, Servicegroup);
    if stripped.Some? {
      var compiled := CompileFilter(Hosts, stripped.value);
      hosts := compiled.value;
    }
    var services := CompileFilter(Services, Rewrite(filter.value));
    return Queries(hosts, services.value);
  }

  // ---- Nothing raises ----------------------------------------------------------------------------------

  /** No leaf on a state: nothing the compiler raises on. */
  ghost predicate Stateless(n: Node) {
    match n
    case Leaf(f, _, _) => f != State
    case Group(_, conds) => forall c :: c in conds ==> Stateless(c)
  }

  lemma {:induction false} StatelessLeaves(n: Node)
    requires Stateless(n)
    ensures forall l :: l in Leaves(n) && l.Leaf? ==> l.field != State
    decreases n, 1
  {
    if n.Leaf? {
    } else {
      StatelessLeavesOf(n.conds);
    }
  }

  lemma {:induction false} StatelessLeavesOf(conds: seq<Node>)
    requires forall c :: c in conds ==> Stateless(c)
    ensures forall l :: l in LeavesOf(conds) && l.Leaf? ==> l.field != State
    decreases conds, 0
  {
    if conds == [] {
    } else {
      StatelessLeaves(conds[0]);
      StatelessLeavesOf(conds[1..]);
    }
  }

  lemma {:induction false} ExpandStaysStateless(n: Node)
    requires Stateless(n)
    ensures Stateless(Expand(n))
    decreases n, 1
  {
    if n.Leaf? {
    } else {
      ExpandAllStaysStateless(n.conds);
    }
  }

  lemma {:induction false} ExpandAllStaysStateless(conds: seq<Node>)
    requires forall c :: c in conds ==> Stateless(c)
    ensures forall c :: c in ExpandAll(conds) ==> Stateless(c)
    decreases conds, 0
  {
    if conds == [] {
    } else {
      ExpandStaysStateless(conds[0]);
      ExpandAllStaysStateless(conds[1..]);
    }
  }

  lemma StatelessCompiles(ctx: Context, n: Node)
    requires WellFormed(n) && Stateless(n)
    ensures Compile(ctx, n).Ok?
  {
    var e := Expand(n);
    ExpandStaysStateless(n);
    StatelessLeaves(e);
    if e.Group? {
      PartsOfList(e.conds);
      StatelessLeavesOf(OrFree(e.conds));
    }
    CompileRaisesExactly(ctx, n);
  }

  /** The sides of an accepted filter are well-formed and free of states. */
  lemma {:induction false} SidesAreStateless(n: Node, compiles: string -> bool, depth: nat)
    requires Valid(n, FIELDS_TOTALS, compiles, depth)
    ensures Stateless(n) && WellFormed(n) && Stateless(Rewrite(n)) && WellFormed(Rewrite(n))
    decreases n
  {
    if n.Leaf? {
    } else {
      forall c | c in n.conds
        ensures Stateless(c) && WellFormed(c) && Stateless(Rewrite(c)) && WellFormed(Rewrite(c))
      {
        SidesAreStateless(c, compiles, depth + 1);
      }
      RewriteAllMembers(n.conds);
    }
  }

  lemma {:induction false} PruneStaysStateless(fields: set<Field>, n: Node)
    requires Stateless(n)
    ensures Prune(fields, n).Some? ==> Stateless(Prune(fields, n).value)
    decreases n, 1
  {
    if n.Leaf? {
    } else {
      PruneAllStaysStateless(fields, n.conds);
    }
  }

  lemma {:induction false} PruneAllStaysStateless(fields: set<Field>, conds: seq<Node>)
    requires forall c :: c in conds ==> Stateless(c)
    ensures forall c :: c in PruneAll(fields, conds) ==> Stateless(c)
    decreases conds, 0
  {
    if conds == [] {
    } else {
      PruneStaysStateless(fields, conds[0]);
      PruneAllStaysStateless(fields, conds[1..]);
    }
  }

  lemma BothCompile(n: Node, compiles: string -> bool)
    requires Valid(n, FIELDS_TOTALS, compiles, 0)
    ensures HostQuery(n).Ok? && ServiceQuery(n).Ok?
  {
    SidesAreStateless(n, compiles, 0);
    PruneStaysStateless({Servicegroup}, n);
    PruneKeepsWellFormed({Servicegroup}, n);
    StatelessCompiles(Services, Rewrite(n));
    if Prune({Servicegroup}, n).Some? {
      StatelessCompiles(Hosts, Prune({Servicegroup}, n).value);
    }
  }

  // ---- Parameters carry over -----------------------------------------------------------------------------

  /** A leaf that becomes a parameter: no `in` on a group field. */
  predicate IsTotalsLeaf(l: Node) {
    HostLevelLeaf(l) || (l.Leaf? && l.field == Servicegroup && ShapeOk(l.field, l.op, l.value) && l.op != In)
  }

  /** A service group shares no key with the other leaves. */
  lemma ServicegroupKeyIsApart(m: Node, l: Node)
    requires IsTotalsLeaf(m) && m.field == Servicegroup && HostLevelLeaf(l)
    ensures !SameKey(Services, Rewrite(m), Rewrite(l))
  {
  }

  /** A leaf that survives on hosts survives on services. */
  lemma {:induction false} SurvivorOnBothSides(leaves: seq<Node>, l: Node)
    requires forall m :: m in leaves ==> IsTotalsLeaf(m)
    requires l in Survivors(Hosts, Without({Servicegroup}, leaves))
    ensures l in leaves && HostLevelLeaf(l) && Rewrite(l) in Survivors(Services, RewriteAll(leaves))
  {
    if leaves == [] {
    } else {
      var first, rest := leaves[0], leaves[1..];
      assert first in leaves && IsTotalsLeaf(first);
      assert leaves == [first] + rest && RewriteAll(leaves)[1..] == RewriteAll(rest);
      if !IsOn({Servicegroup}, first) && l !in Survivors(Hosts, Without({Servicegroup}, rest)) {
        assert Without({Servicegroup}, leaves)[1..] == Without({Servicegroup}, rest);
        FirstSurvives(first, rest);
      } else {
        assert !IsOn({Servicegroup}, first) ==>
          Without({Servicegroup}, leaves)[1..] == Without({Servicegroup}, rest);
        SurvivorOnBothSides(rest, l);
      }
    }
  }

  lemma FirstSurvives(first: Node, rest: seq<Node>)
    requires HostLevelLeaf(first) && forall m :: m in rest ==> IsTotalsLeaf(m)
    requires !Overwritten(Hosts, first, Without({Servicegroup}, rest))
    ensures !Overwritten(Services, Rewrite(first), RewriteAll(rest))
  {
    RewriteAllMembers(rest);
    forall r | r in RewriteAll(rest) ensures !SameKey(Services, r, Rewrite(first)) {
      var m :| m in rest && r == Rewrite(m);
      if m.field == Servicegroup {
        ServicegroupKeyIsApart(m, first);
      } else {
        WithoutExactly({Servicegroup}, rest, m);
        SameKeysBothSides(m, first);
      }
    }
  }

  /** What the parameters of a service say, the host's parameters say without the service groups. */
  lemma ParamsCarryOver(t: Thruk, leaves: seq<Node>, service: Row, host: Row)
    requires CarriesHost(service, host) && forall l :: l in leaves ==> IsTotalsLeaf(l)
    requires AddLeaves(Services, map[], RewriteAll(leaves)).Ok?
    requires AddLeaves(Hosts, map[], Without({Servicegroup}, leaves)).Ok?
    requires ParamsHold(t, Services, AddLeaves(Services, map[], RewriteAll(leaves)).value, service)
    ensures ParamsHold(t, Hosts, AddLeaves(Hosts, map[], Without({Servicegroup}, leaves)).value, host)
  {
    var kept := Without({Servicegroup}, leaves);
    ParamsAreSurvivors(t, Services, RewriteAll(leaves), service);
    ParamsAreSurvivors(t, Hosts, kept, host);
    forall l | l in Survivors(Hosts, kept) ensures LeafParamHolds(t, Hosts, l, host) {
      SurvivorOnBothSides(leaves, l);
      LeafAgrees(t, l, service, host);
    }
  }

  // ---- Text carries over ---------------------------------------------------------------------------------

  ghost predicate TotalsLevel(n: Node) {
    match n
    case Leaf(f, _, _) => f in FIELDS_TOTALS
    case Group(_, conds) => forall c :: c in conds ==> TotalsLevel(c)
  }

  lemma {:induction false} ValidIsTotalsLevel(n: Node, compiles: string -> bool, depth: nat)
    requires Valid(n, FIELDS_TOTALS, compiles, depth)
    ensures TotalsLevel(n) && WellFormed(n)
    decreases n
  {
    if n.Leaf? {
    } else {
      forall c | c in n.conds ensures TotalsLevel(c) && WellFormed(c) {
        ValidIsTotalsLevel(c, compiles, depth + 1);
      }
    }
  }

  /** What a condition's text says of a service, and of a host. */
  ghost predicate ServiceSays(t: Thruk, n: Node, service: Row) {
    Q.Means(ToQ(Services, Rewrite(Expand(n))), (a: QAtom) => AtomHolds(t, Services, a, service))
  }

  ghost predicate HostSays(t: Thruk, n: Node, host: Row) {
    Q.Means(ToQ(Hosts, Expand(n)), (a: QAtom) => AtomHolds(t, Hosts, a, host))
  }

  lemma HostGroupSays(t: Thruk, isOr: bool, conds: seq<Node>, host: Row)
    ensures HostSays(t, Group(isOr, conds), host) <==>
      if isOr then exists c :: c in conds && HostSays(t, c, host) else forall c :: c in conds ==> HostSays(t, c, host)
  {
    ToQsMembers(Hosts, ExpandAll(conds));
    ExpandAllMembers(conds);
    forall c | c in conds ensures ToQ(Hosts, Expand(c)) in ToQs(Hosts, ExpandAll(conds)) {}
    forall q | q in ToQs(Hosts, ExpandAll(conds)) ensures exists c :: c in conds && q == ToQ(Hosts, Expand(c)) {
      var e :| e in ExpandAll(conds) && q == ToQ(Hosts, e);
    }
    assert ToQ(Hosts, Expand(Group(isOr, conds))) == Q.QGroup(isOr, ToQs(Hosts, ExpandAll(conds)));
  }

  lemma ServiceGroupSays(t: Thruk, isOr: bool, conds: seq<Node>, service: Row)
    ensures ServiceSays(t, Group(isOr, conds), service) <==>
      if isOr then exists c :: c in conds && ServiceSays(t, c, service)
      else forall c :: c in conds ==> ServiceSays(t, c, service)
  {
    var es := ExpandAll(conds);
    ToQsMembers(Services, RewriteAll(es));
    RewriteAllMembers(es);
    ExpandAllMembers(conds);
    forall c | c in conds ensures ToQ(Services, Rewrite(Expand(c))) in ToQs(Services, RewriteAll(es)) {}
    forall q | q in ToQs(Services, RewriteAll(es))
      ensures exists c :: c in conds && q == ToQ(Services, Rewrite(Expand(c)))
    {
      var r :| r in RewriteAll(es) && q == ToQ(Services, r);
      var e :| e in es && r == Rewrite(e);
      var c :| c in conds && e == Expand(c);
    }
    assert ToQ(Services, Rewrite(Expand(Group(isOr, conds)))) == Q.QGroup(isOr, ToQs(Services, RewriteAll(es)));
  }

  lemma RegroupSays(t: Thruk, isOr: bool, kept: seq<Node>, host: Row)
    requires kept != []
    ensures HostSays(t, Regroup(isOr, kept).value, host) <==>
      if isOr then exists c :: c in kept && HostSays(t, c, host) else forall c :: c in kept ==> HostSays(t, c, host)
  {
    if |kept| == 1 {
      forall c ensures c in kept <==> c == kept[0] {}
      assert kept[0] in kept && Regroup(isOr, kept) == Some(kept[0]);
    } else {
      HostGroupSays(t, isOr, kept, host);
      assert Regroup(isOr, kept) == Some(Group(isOr, kept));
    }
  }

  lemma LeafSays(t: Thruk, l: Node, service: Row, host: Row)
    requires l.Leaf? && HostLevel(l) && WellFormed(l) && CarriesHost(service, host)
    ensures ServiceSays(t, l, service) <==> HostSays(t, l, host)
  {
    ExpandIsWellFormed(l);
    ExpandStaysHostLevel(l);
    HostLevelTrees(Expand(l));
    TextAgrees(t, Expand(l), service, host, (a: QAtom) => AtomHolds(t, Services, a, service),
               (a: QAtom) => AtomHolds(t, Hosts, a, host));
  }

  lemma {:induction false} PruneAllComeFrom(fields: set<Field>, conds: seq<Node>, d: Node)
    requires d in PruneAll(fields, conds)
    ensures exists c :: c in conds && Prune(fields, c) == Some(d)
  {
    if Prune(fields, conds[0]) == Some(d) {
      assert conds[0] in conds;
    } else {
      PruneAllComeFrom(fields, conds[1..], d);
      var c :| c in conds[1..] && Prune(fields, c) == Some(d);
      assert c in conds;
    }
  }

  /** What a condition says of a service, the stripped condition says of its host. */
  lemma {:induction false} PruneSays(t: Thruk, n: Node, service: Row, host: Row)
    requires TotalsLevel(n) && WellFormed(n) && OrsStayWhole({Servicegroup}, n) && CarriesHost(service, host)
    requires ServiceSays(t, n, service) && Prune({Servicegroup}, n).Some?
    ensures HostSays(t, Prune({Servicegroup}, n).value, host)
    decreases n
  {
    match n
    case Leaf(_, _, _) => LeafSays(t, n, service, host);
    case Group(isOr, conds) =>
      var kept := PruneAll({Servicegroup}, conds);
      ServiceGroupSays(t, isOr, conds, service);
      RegroupSays(t, isOr, kept, host);
      if isOr {
        var c :| c in conds && ServiceSays(t, c, service);
        PruneSays(t, c, service, host);
        PruneAllHas({Servicegroup}, conds, c);
      } else {
        forall d | d in kept ensures HostSays(t, d, host) {
          PruneAllComeFrom({Servicegroup}, conds, d);
          var c :| c in conds && Prune({Servicegroup}, c) == Some(d);
          PruneSays(t, c, service, host);
        }
      }
  }

  // ---- From text to parameters -----------------------------------------------------------------------------

  lemma {:induction false} AndTextIsLeaves(ctx: Context, n: Node, holds: QAtom -> bool)
    requires !HasOr(n) && Q.Means(ToQ(ctx, n), holds)
    ensures forall l :: l in Leaves(n) ==> Q.Means(ToQ(ctx, l), holds)
    decreases n, 1
  {
    if n.Leaf? {
    } else {
      ToQsMembers(ctx, n.conds);
      AndTextsAreLeaves(ctx, n.conds, holds);
    }
  }

  lemma {:induction false} AndTextsAreLeaves(ctx: Context, conds: seq<Node>, holds: QAtom -> bool)
    requires forall c :: c in conds ==> !HasOr(c) && Q.Means(ToQ(ctx, c), holds)
    ensures forall l :: l in LeavesOf(conds) ==> Q.Means(ToQ(ctx, l), holds)
    decreases conds, 0
  {
    if conds == [] {
    } else {
      AndTextIsLeaves(ctx, conds[0], holds);
      AndTextsAreLeaves(ctx, conds[1..], holds);
    }
  }

  lemma LeafTextIsParam(t: Thruk, l: Node, host: Row)
    requires HostLevelLeaf(l) && Q.Means(ToQ(Hosts, l), (a: QAtom) => AtomHolds(t, Hosts, a, host))
    ensures LeafParamHolds(t, Hosts, l, host)
  {
  }

  /** The stripped tree has no other leaves than a statistics filter. */
  lemma {:induction false} PrunedIsHostLevel(n: Node)
    requires TotalsLevel(n)
    ensures Prune({Servicegroup}, n).Some? ==> HostLevel(Prune({Servicegroup}, n).value)
    decreases n, 1
  {
    if n.Leaf? {
    } else {
      PrunedAllHostLevel(n.conds);
    }
  }

  lemma {:induction false} PrunedAllHostLevel(conds: seq<Node>)
    requires forall c :: c in conds ==> TotalsLevel(c)
    ensures forall d :: d in PruneAll({Servicegroup}, conds) ==> HostLevel(d)
    decreases conds, 0
  {
    if conds == [] {
    } else {
      PrunedIsHostLevel(conds[0]);
      PrunedAllHostLevel(conds[1..]);
    }
  }

  lemma StrippedLeavesAreHostLevel(d: Node, l: Node)
    requires HostLevel(d) && WellFormed(d) && l in Leaves(Expand(d))
    ensures HostLevelLeaf(l)
  {
    ExpandIsWellFormed(d);
    ExpandStaysHostLevel(d);
    HostLevelTrees(Expand(d));
    LeavesAreHostLevel(Expand(d));
  }

  /** A condition without OR that holds as text holds leaf by leaf as parameters. */
  lemma SaidLeavesHold(t: Thruk, d: Node, host: Row)
    requires HostLevel(d) && WellFormed(d) && !HasOr(Expand(d)) && HostSays(t, d, host)
    ensures forall l :: l in Leaves(Expand(d)) ==> LeafParamHolds(t, Hosts, l, host)
  {
    AndTextIsLeaves(Hosts, Expand(d), (a: QAtom) => AtomHolds(t, Hosts, a, host));
    forall l | l in Leaves(Expand(d)) ensures LeafParamHolds(t, Hosts, l, host) {
      StrippedLeavesAreHostLevel(d, l);
      LeafTextIsParam(t, l, host);
    }
  }

  // ---- Leaves moved from text to parameters ------------------------------------------------------------------

  /** `hb` is `lb` with leaves put in that hold on the host anyway. */
  ghost predicate Interleaves(t: Thruk, host: Row, hb: seq<Node>, lb: seq<Node>) {
    if hb == [] then lb == []
    else
      || (lb != [] && hb[0] == lb[0] && Interleaves(t, host, hb[1..], lb[1..]))
      || (LeafParamHolds(t, Hosts, hb[0], host) && Interleaves(t, host, hb[1..], lb))
  }

  lemma {:induction false} InterleavesSame(t: Thruk, host: Row, leaves: seq<Node>)
    ensures Interleaves(t, host, leaves, leaves)
  {
    if leaves == [] {
    } else {
      InterleavesSame(t, host, leaves[1..]);
    }
  }

  lemma {:induction false} InterleavesHeld(t: Thruk, host: Row, leaves: seq<Node>)
    requires forall l :: l in leaves ==> LeafParamHolds(t, Hosts, l, host)
    ensures Interleaves(t, host, leaves, [])
  {
    if leaves == [] {
    } else {
      InterleavesHeld(t, host, leaves[1..]);
    }
  }

  lemma {:induction false} InterleavesAppend(t: Thruk, host: Row, a: seq<Node>, b: seq<Node>, c: seq<Node>,
                                             d: seq<Node>)
    requires Interleaves(t, host, a, b) && Interleaves(t, host, c, d)
    ensures Interleaves(t, host, a + c, b + d)
  {
    if a == [] {
      assert a + c == c && b + d == d;
    } else {
      assert (a + c)[1..] == a[1..] + c && (a + c)[0] == a[0];
      if b != [] && a[0] == b[0] && Interleaves(t, host, a[1..], b[1..]) {
        assert (b + d)[1..] == b[1..] + d && (b + d)[0] == b[0];
        InterleavesAppend(t, host, a[1..], b[1..], c, d);
      } else {
        InterleavesAppend(t, host, a[1..], b, c, d);
      }
    }
  }

  /** Every entry is one of the other dictionary's, or holds anyway. */
  ghost predicate Covered(t: Thruk, host: Row, more: Params, fewer: Params) {
    forall k :: k in more ==> (k in fewer && more[k] == fewer[k]) || ParamHolds(t, Hosts, k, more[k], host)
  }

  /** Putting such leaves in, and whatever they overwrite, costs the host nothing. */
  lemma {:induction false} InterleavedHold(t: Thruk, host: Row, hb: seq<Node>, lb: seq<Node>, more: Params,
                                           fewer: Params)
    requires Interleaves(t, host, hb, lb) && Covered(t, host, more, fewer)
    requires AddLeaves(Hosts, more, hb).Ok? && AddLeaves(Hosts, fewer, lb).Ok?
    requires ParamsHold(t, Hosts, AddLeaves(Hosts, fewer, lb).value, host)
    ensures ParamsHold(t, Hosts, AddLeaves(Hosts, more, hb).value, host)
    decreases |hb|
  {
    if hb == [] {
    } else {
      var (k, p) := ParamOf(Hosts, hb[0]).value;
      if lb != [] && hb[0] == lb[0] && Interleaves(t, host, hb[1..], lb[1..]) {
        InterleavedHold(t, host, hb[1..], lb[1..], more[k := p], fewer[k := p]);
      } else {
        InterleavedHold(t, host, hb[1..], lb, more[k := p], fewer);
      }
    }
  }

  // ---- One condition of the root -----------------------------------------------------------------------------

  /** A condition in the services' text is said of the service. */
  ghost predicate TextSaid(t: Thruk, conds: seq<Node>, service: Row) {
    forall c :: c in conds && HasOr(Expand(c)) ==> ServiceSays(t, c, service)
  }

  ghost predicate Strippable(conds: seq<Node>) {
    forall c :: c in conds ==> TotalsLevel(c) && WellFormed(c) && OrsStayWhole({Servicegroup}, c)
  }

  lemma {:induction false} PlainWhenOrFree(n: Node)
    requires WellFormed(n) && !HasOr(Expand(n))
    ensures Expand(n) == n && NoGroupIn(n)
    decreases n, 1
  {
    if n.Leaf? {
    } else {
      PlainWhenOrFreeAll(n.conds);
    }
  }

  lemma {:induction false} PlainWhenOrFreeAll(conds: seq<Node>)
    requires forall c :: c in conds ==> WellFormed(c)
    requires forall e :: e in ExpandAll(conds) ==> !HasOr(e)
    ensures ExpandAll(conds) == conds && forall c :: c in conds ==> NoGroupIn(c)
    decreases conds, 0
  {
    if conds == [] {
    } else {
      assert ExpandAll(conds)[0] in ExpandAll(conds);
      assert forall e :: e in ExpandAll(conds[1..]) ==> e in ExpandAll(conds);
      PlainWhenOrFree(conds[0]);
      PlainWhenOrFreeAll(conds[1..]);
    }
  }

  lemma {:induction false} NoGroupInStays(n: Node)
    requires NoGroupIn(n)
    ensures Expand(n) == n
    decreases n, 1
  {
    if n.Leaf? {
    } else {
      NoGroupInAllStays(n.conds);
    }
  }

  lemma {:induction false} NoGroupInAllStays(conds: seq<Node>)
    requires forall c :: c in conds ==> NoGroupIn(c)
    ensures ExpandAll(conds) == conds
    decreases conds, 0
  {
    if conds == [] {
    } else {
      NoGroupInStays(conds[0]);
      NoGroupInAllStays(conds[1..]);
    }
  }

  lemma {:induction false} PruneKeepsNoGroupIn(fields: set<Field>, n: Node)
    requires NoGroupIn(n)
    ensures Prune(fields, n).Some? ==> NoGroupIn(Prune(fields, n).value)
    decreases n, 1
  {
    if n.Leaf? {
    } else {
      PruneAllKeepsNoGroupIn(fields, n.conds);
    }
  }

  lemma {:induction false} PruneAllKeepsNoGroupIn(fields: set<Field>, conds: seq<Node>)
    requires forall c :: c in conds ==> NoGroupIn(c)
    ensures forall c :: c in PruneAll(fields, conds) ==> NoGroupIn(c)
    decreases conds, 0
  {
    if conds == [] {
    } else {
      PruneKeepsNoGroupIn(fields, conds[0]);
      PruneAllKeepsNoGroupIn(fields, conds[1..]);
    }
  }

  /** A condition without OR stays without one, and keeps its other leaves. */
  lemma OrFreeStripped(c: Node)
    requires WellFormed(c) && !HasOr(Expand(c))
    ensures LeavesOrNone(Prune({Servicegroup}, c)) == Without({Servicegroup}, Leaves(Expand(c)))
    ensures var d := Prune({Servicegroup}, c); d.Some? ==> Expand(d.value) == d.value && !HasOr(d.value)
  {
    PlainWhenOrFree(c);
    LeavesLeftExactly({Servicegroup}, c);
    PruneKeepsNoOr({Servicegroup}, c);
    PruneKeepsNoGroupIn({Servicegroup}, c);
    if Prune({Servicegroup}, c).Some? {
      NoGroupInStays(Prune({Servicegroup}, c).value);
    }
  }

  function OwnLeaves(e: Node): seq<Node> {
    if HasOr(e) then [] else Leaves(e)
  }

  function OwnLeavesOf(d: Option<Node>): seq<Node> {
    if d.None? then [] else OwnLeaves(Expand(d.value))
  }

  lemma OneInterleaves(t: Thruk, c: Node, service: Row, host: Row)
    requires Strippable([c]) && TextSaid(t, [c], service) && CarriesHost(service, host)
    ensures Interleaves(t, host, OwnLeavesOf(Prune({Servicegroup}, c)), Without({Servicegroup}, OwnLeaves(Expand(c))))
  {
    var d := Prune({Servicegroup}, c);
    assert c in [c];
    if !HasOr(Expand(c)) {
      OrFreeStripped(c);
      InterleavesSame(t, host, Without({Servicegroup}, Leaves(Expand(c))));
    } else if d.Some? && !HasOr(Expand(d.value)) {
      PruneSays(t, c, service, host);
      PrunedIsHostLevel(c);
      PruneKeepsWellFormed({Servicegroup}, c);
      SaidLeavesHold(t, d.value, host);
      InterleavesHeld(t, host, Leaves(Expand(d.value)));
    }
  }

  /** The leaves of the conditions that the router makes parameters. */
  function Bracketed(conds: seq<Node>): seq<Node> {
    LeavesOf(OrFree(ExpandAll(conds)))
  }

  lemma OwnLeavesFirst(c: Node, rest: seq<Node>)
    ensures Bracketed([c] + rest) == OwnLeaves(Expand(c)) + Bracketed(rest)
  {
    assert ([c] + rest)[1..] == rest;
    var e, es := Expand(c), ExpandAll(rest);
    assert ExpandAll([c] + rest) == [e] + es && ([e] + es)[1..] == es;
    if !HasOr(e) {
      assert ([e] + OrFree(es))[1..] == OrFree(es);
    }
  }

  lemma StrippedFirst(c: Node, rest: seq<Node>)
    ensures Bracketed(PruneAll({Servicegroup}, [c] + rest)) ==
      OwnLeavesOf(Prune({Servicegroup}, c)) + Bracketed(PruneAll({Servicegroup}, rest))
  {
    var kept := PruneAll({Servicegroup}, rest);
    assert ([c] + rest)[1..] == rest;
    match Prune({Servicegroup}, c)
    case None =>
      assert [] + Bracketed(kept) == Bracketed(kept);
      assert PruneAll({Servicegroup}, [c] + rest) == [] + kept == kept;
    case Some(d) => OwnLeavesFirst(d, kept);
  }

  /** Over all conditions of the root: the hosts' parameters are the services' without the service groups, with
      leaves put in that hold on the host anyway. */
  lemma {:induction false} KidsInterleave(t: Thruk, conds: seq<Node>, service: Row, host: Row)
    requires Strippable(conds) && TextSaid(t, conds, service) && CarriesHost(service, host)
    ensures Interleaves(t, host, Bracketed(PruneAll({Servicegroup}, conds)), Without({Servicegroup}, Bracketed(conds)))
  {
    if conds == [] {
    } else {
      var c, rest := conds[0], conds[1..];
      assert conds == [c] + rest;
      KidsInterleave(t, rest, service, host);
      OneInterleaves(t, c, service, host);
      OwnLeavesFirst(c, rest);
      StrippedFirst(c, rest);
      WithoutAppends({Servicegroup}, OwnLeaves(Expand(c)), Bracketed(rest));
      InterleavesAppend(t, host, OwnLeavesOf(Prune({Servicegroup}, c)), Without({Servicegroup}, OwnLeaves(Expand(c))),
                        Bracketed(PruneAll({Servicegroup}, rest)), Without({Servicegroup}, Bracketed(rest)));
    }
  }

  /** Conditions that stay in the text are said of the host. */
  lemma KeptTextIsSaid(t: Thruk, conds: seq<Node>, service: Row, host: Row, d: Node)
    requires Strippable(conds) && TextSaid(t, conds, service) && CarriesHost(service, host)
    requires d in PruneAll({Servicegroup}, conds) && HasOr(Expand(d))
    ensures HostSays(t, d, host)
  {
    PruneAllComeFrom({Servicegroup}, conds, d);
    var c :| c in conds && Prune({Servicegroup}, c) == Some(d);
    if !HasOr(Expand(c)) {
      OrFreeStripped(c);
    } else {
      PruneSays(t, c, service, host);
    }
  }

  // ---- A service only with its host ----------------------------------------------------------------------------

  /** What is left of a root: the conditions left, joined by AND. */
  lemma PrunedRoot(n: Node)
    ensures Prune({Servicegroup}, n) == Regroup(false, PruneAll({Servicegroup}, Kids(n)))
  {
    if !(n.Group? && !n.isOr) {
      assert [n][1..] == [] && PruneAll({Servicegroup}, []) == [];
    }
  }

  lemma RewriteConjoins(nodes: seq<Node>)
    requires nodes != []
    ensures RewriteAll(nodes) != [] && Rewrite(Conjoin(nodes)) == Conjoin(RewriteAll(nodes))
  {
  }

  lemma KidsAreStrippable(n: Node, compiles: string -> bool)
    requires Valid(n, FIELDS_TOTALS, compiles, 0) && OrsStayWhole({Servicegroup}, n)
    ensures Strippable(Kids(n))
  {
    ValidIsTotalsLevel(n, compiles, 0);
  }

  /** A leaf of the parameters is a leaf of one of the root's conditions, which has no OR. */
  lemma RootLeafCondition(conds: seq<Node>, l: Node) returns (c: Node)
    requires l in Bracketed(conds)
    ensures c in conds && !HasOr(Expand(c)) && l in Leaves(Expand(c))
  {
    var es := ExpandAll(conds);
    LeavesOfMember(OrFree(es), l);
    PartsOfList(es);
    ExpandAllMembers(conds);
    var e :| e in OrFree(es) && l in Leaves(e);
    c :| c in conds && e == Expand(c);
  }

  lemma KidsAreValid(n: Node, compiles: string -> bool, c: Node)
    requires Valid(n, FIELDS_TOTALS, compiles, 0) && c in Kids(n)
    ensures exists depth: nat :: Valid(c, FIELDS_TOTALS, compiles, depth)
  {
    if c == n {
    } else {
      assert Valid(c, FIELDS_TOTALS, compiles, 1);
    }
  }

  lemma RootLeavesAreTotals(n: Node, compiles: string -> bool, l: Node)
    requires Valid(n, FIELDS_TOTALS, compiles, 0) && l in Bracketed(Kids(n))
    ensures IsTotalsLeaf(l)
  {
    var c := RootLeafCondition(Kids(n), l);
    KidsAreValid(n, compiles, c);
    var depth: nat :| Valid(c, FIELDS_TOTALS, compiles, depth);
    ValidIsTotalsLevel(c, compiles, depth);
    PlainWhenOrFree(c);
    LeavesAreLeaves(c, l);
    LeavesAreValid(c, FIELDS_TOTALS, compiles, depth, l);
  }

  /** What the query for services says of a service it selects. */
  lemma SelectedServiceSays(t: Thruk, andFirst: bool, n: Node, service: Row)
    requires WellFormed(n) && WellFormed(Rewrite(n)) && ServiceQuery(n).Ok?
    requires Selects(t, Services, andFirst, ServiceQuery(n).value, service)
    ensures var params := AddLeaves(Services, map[], RewriteAll(Bracketed(Kids(n))));
      params.Ok? && ParamsHold(t, Services, params.value, service)
    ensures TextSaid(t, Kids(n), service)
  {
    var e := Expand(n);
    CompileSplits(Services, Rewrite(n));
    RewriteThenExpand(n);
    RewriteKeepsRoutes(e);
    RoutesOfKids(e);
    KidsExpand(n);
    if TextTree(e).Some? {
      SelectedTextSays(t, andFirst, n, service);
    } else {
      ExpandAllMembers(Kids(n));
      PartsOfList(Kids(e));
    }
  }

  lemma SelectedTextSays(t: Thruk, andFirst: bool, n: Node, service: Row)
    requires WellFormed(Rewrite(n)) && TextTree(Expand(n)).Some?
    requires Q.TextHolds(andFirst, BuildQ(Services, Rewrite(TextTree(Expand(n)).value)),
                         (a: QAtom) => AtomHolds(t, Services, a, service))
    ensures TextSaid(t, Kids(n), service)
  {
    var e := Expand(n);
    var holds := (a: QAtom) => AtomHolds(t, Services, a, service);
    var nodes := WithOr(Kids(e));
    RoutesOfKids(e);
    KidsExpand(n);
    RewriteThenExpand(n);
    RewriteKeepsRoutes(e);
    ExpandIsWellFormed(Rewrite(n));
    PartsAreWellFormed(Rewrite(e));
    RewriteConjoins(nodes);
    ToQNonEmpty(Services, Rewrite(Conjoin(nodes)));
    Q.PrintKeepsMeaning(andFirst, ToQ(Services, Rewrite(Conjoin(nodes))), true, holds);
    ConjoinMeans(Services, RewriteAll(nodes), holds);
    RewriteAllMembers(nodes);
    ExpandAllMembers(Kids(n));
    PartsOfList(Kids(e));
  }

  /** A host meets its query if it meets the parameters and what each condition in the text says. */
  lemma HostMeets(t: Thruk, andFirst: bool, p: Node, host: Row)
    requires WellFormed(p) && AddLeaves(Hosts, map[], BracketLeaves(Expand(p))).Ok?
    requires ParamsHold(t, Hosts, AddLeaves(Hosts, map[], BracketLeaves(Expand(p))).value, host)
    requires forall c :: c in Kids(p) && HasOr(Expand(c)) ==> HostSays(t, c, host)
    ensures Compile(Hosts, p).Ok? && Selects(t, Hosts, andFirst, Compile(Hosts, p).value, host)
  {
    var e := Expand(p);
    CompileSplits(Hosts, p);
    RoutesOfKids(e);
    KidsExpand(p);
    if TextTree(e).Some? {
      var holds := (a: QAtom) => AtomHolds(t, Hosts, a, host);
      var nodes := WithOr(Kids(e));
      ExpandIsWellFormed(p);
      PartsAreWellFormed(e);
      ToQNonEmpty(Hosts, Conjoin(nodes));
      Q.PrintKeepsMeaning(andFirst, ToQ(Hosts, Conjoin(nodes)), true, holds);
      ConjoinMeans(Hosts, nodes, holds);
      PartsOfList(Kids(e));
      WithOrMembers(Kids(e));
      ExpandAllMembers(Kids(p));
      forall x | x in nodes ensures Q.Means(ToQ(Hosts, x), holds) {
        var c :| c in Kids(p) && x == Expand(c);
      }
    }
  }

  lemma {:induction false} WithOrMembers(conds: seq<Node>)
    ensures forall c :: c in WithOr(conds) ==> HasOr(c) && c in conds
  {
    if conds == [] {
    } else {
      WithOrMembers(conds[1..]);
    }
  }

  /** Leaves put in that hold anyway leave the parameters met. */
  lemma InterleavedParams(t: Thruk, leaves: seq<Node>, hosts: seq<Node>, service: Row, host: Row)
    requires CarriesHost(service, host) && forall l :: l in leaves ==> IsTotalsLeaf(l)
    requires Interleaves(t, host, hosts, Without({Servicegroup}, leaves))
    requires AddLeaves(Services, map[], RewriteAll(leaves)).Ok? && AddLeaves(Hosts, map[], hosts).Ok?
    requires ParamsHold(t, Services, AddLeaves(Services, map[], RewriteAll(leaves)).value, service)
    ensures ParamsHold(t, Hosts, AddLeaves(Hosts, map[], hosts).value, host)
  {
    var kept := Without({Servicegroup}, leaves);
    forall l | l in kept ensures HostLevelLeaf(l) {
      WithoutExactly({Servicegroup}, leaves, l);
    }
    AlwaysCompiles(kept, map[], map[]);
    ParamsCarryOver(t, leaves, service, host);
    InterleavedHold(t, host, hosts, kept, map[], map[]);
  }

  /** Where one condition is left and its own conditions become the root's, the host meets each of them. */
  lemma LastConditionSaid(t: Thruk, p: Node, host: Row)
    requires WellFormed(p) && HostLevel(p) && p.Group? && !p.isOr && HostSays(t, p, host)
    ensures forall l :: l in BracketLeaves(Expand(p)) ==> LeafParamHolds(t, Hosts, l, host)
    ensures forall c :: c in Kids(p) ==> HostSays(t, c, host)
  {
    HostGroupSays(t, false, p.conds, host);
    RoutesOfKids(Expand(p));
    KidsExpand(p);
    var es := ExpandAll(p.conds);
    ExpandAllMembers(p.conds);
    PartsOfList(es);
    forall l | l in BracketLeaves(Expand(p)) ensures LeafParamHolds(t, Hosts, l, host) {
      LeavesOfMember(OrFree(es), l);
      var e :| e in OrFree(es) && l in Leaves(e);
      var c :| c in p.conds && e == Expand(c);
      SaidLeavesHold(t, c, host);
    }
  }

  /** The parameters of the hosts' query: those of the conditions left, unless one condition is left that has
      several of its own and an OR among them. */
  lemma HostParameters(p: Node, ds: seq<Node>)
    requires ds != [] && Regroup(false, ds) == Some(p)
    ensures BracketLeaves(Expand(p)) == Bracketed(ds) || (ds == [p] && p.Group? && !p.isOr && HasOr(Expand(p)))
  {
    RoutesOfKids(Expand(p));
    KidsExpand(p);
    if |ds| == 1 && (p.Leaf? || p.isOr || !HasOr(Expand(p))) {
      assert ds == [p] && [p][1..] == [];
      OwnLeavesFirst(p, []);
      assert [p] + [] == [p] && Bracketed([]) == [] && BracketLeaves(Expand(p)) + [] == BracketLeaves(Expand(p));
    }
  }

  /** A service is counted only if the host that carries it is: for every filter the tool accepts whose ORs are
      stripped whole or keep something of each condition, whatever the routes of the two queries and the keys
      that clash in them. */
  lemma ServiceOnlyWithItsHost(t: Thruk, andFirst: bool, n: Node, compiles: string -> bool, service: Row, host: Row)
    requires Valid(n, FIELDS_TOTALS, compiles, 0) && OrsStayWhole({Servicegroup}, n) && CarriesHost(service, host)
    requires ServiceQuery(n).Ok? && Selects(t, Services, andFirst, ServiceQuery(n).value, service)
    ensures HostQuery(n).Ok? && Selects(t, Hosts, andFirst, HostQuery(n).value, host)
  {
    var kids, leaves := Kids(n), Bracketed(Kids(n));
    BothCompile(n, compiles);
    SidesAreStateless(n, compiles, 0);
    KidsAreStrippable(n, compiles);
    SelectedServiceSays(t, andFirst, n, service);
    PrunedRoot(n);
    forall l | l in leaves ensures IsTotalsLeaf(l) {
      RootLeavesAreTotals(n, compiles, l);
    }
    if Prune({Servicegroup}, n).Some? {
      var p, ds := Prune({Servicegroup}, n).value, PruneAll({Servicegroup}, kids);
      ValidIsTotalsLevel(n, compiles, 0);
      PrunedIsHostLevel(n);
      PruneKeepsWellFormed({Servicegroup}, n);
      CompileSplits(Hosts, p);
      KidsInterleave(t, kids, service, host);
      StrippedIsMet(t, p, kids, service, host);
      InterleavedParams(t, leaves, BracketLeaves(Expand(p)), service, host);
      HostMeets(t, andFirst, p, host);
    }
  }

  lemma StrippedIsMet(t: Thruk, p: Node, kids: seq<Node>, service: Row, host: Row)
    requires Strippable(kids) && TextSaid(t, kids, service) && CarriesHost(service, host)
    requires Regroup(false, PruneAll({Servicegroup}, kids)) == Some(p) && WellFormed(p) && HostLevel(p)
    requires Interleaves(t, host, Bracketed(PruneAll({Servicegroup}, kids)), Without({Servicegroup}, Bracketed(kids)))
    ensures Interleaves(t, host, BracketLeaves(Expand(p)), Without({Servicegroup}, Bracketed(kids)))
    ensures forall c :: c in Kids(p) && HasOr(Expand(c)) ==> HostSays(t, c, host)
  {
    var ds := PruneAll({Servicegroup}, kids);
    HostParameters(p, ds);
    if ds == [p] && p.Group? && !p.isOr && HasOr(Expand(p)) {
      KeptTextIsSaid(t, kids, service, host, p);
      LastConditionSaid(t, p, host);
      OwnLeavesFirst(p, []);
      assert [p] + [] == [p] && Bracketed([]) == [];
      assert Bracketed(ds) == [];
      InterleavesHeld(t, host, BracketLeaves(Expand(p)));
    } else if ds == [p] && p.Group? && !p.isOr {
      ExpandAllMembers(p.conds);
    } else {
      assert Kids(p) == ds;
      forall c | c in Kids(p) && HasOr(Expand(c)) ensures HostSays(t, c, host) {
        KeptTextIsSaid(t, kids, service, host, c);
      }
    }
  }

  // ---- Where a service is counted without its host ---------------------------------------------------------------

  predicate IsGroupEquality(l: Node) {
    l.Leaf? && l.field in {Hostgroup, Servicegroup} && l.op == Eq && l.value.One?
  }

  /** One equality on a group, or an OR of them. */
  ghost predicate GroupEqualities(n: Node) {
    IsGroupEquality(n) || (n.Group? && n.isOr && n.conds != [] && forall c :: c in n.conds ==> IsGroupEquality(c))
  }

  lemma {:induction false} EqualitiesStay(conds: seq<Node>)
    requires forall c :: c in conds ==> IsGroupEquality(c)
    ensures ExpandAll(conds) == conds && RewriteAll(conds) == conds && LeavesOf(conds) == conds
  {
    if conds == [] {
    } else {
      var c, rest := conds[0], conds[1..];
      assert c in conds && conds == [c] + rest;
      EqualitiesStay(rest);
    }
  }

  /** Such a filter is compiled exactly. */
  lemma GroupEqualitiesExact(t: Thruk, ctx: Context, andFirst: bool, n: Node, row: Row)
    requires GroupEqualities(n)
    ensures Rewrite(n) == n && Compile(ctx, n).Ok?
    ensures Selects(t, ctx, andFirst, Compile(ctx, n).value, row) <==> Holds(t, ctx, n, row)
  {
    GroupEqualitiesRoutes(n);
    CompileSplits(ctx, n);
    CompileKeepsMeaning(t, ctx, andFirst, n, row);
  }

  lemma GroupEqualitiesRoutes(n: Node)
    requires GroupEqualities(n)
    ensures Rewrite(n) == n == Expand(n) && WellFormed(n)
    ensures BracketLeaves(n) == if n.Leaf? then [n] else []
    ensures TextTree(n) == if n.Leaf? then None else Some(n)
    ensures forall l :: l in Leaves(n) ==> IsGroupEquality(l)
  {
    if n.Group? {
      EqualitiesStay(n.conds);
    }
  }

  lemma PrunedEqualities(conds: seq<Node>)
    requires conds != [] && forall c :: c in conds ==> IsGroupEquality(c)
    ensures var p := Prune({Servicegroup}, Group(true, conds)); p.Some? ==>
      GroupEqualities(p.value) && forall l :: l in Leaves(p.value) ==> l in conds && l.Leaf? && l.field == Hostgroup
  {
    var kept := Without({Servicegroup}, conds);
    LeavesPruneToWithout({Servicegroup}, conds);
    forall c | c in kept ensures c in conds && c.field == Hostgroup {
      WithoutExactly({Servicegroup}, conds, c);
    }
    EqualitiesStay(kept);
    if |kept| == 1 {
      assert kept[0] in kept && Leaves(kept[0]) == [kept[0]];
    }
  }

  /** For an OR of groups the condition is exact: every service is counted with its host if and only if the OR is
      stripped whole or stays whole. */
  lemma CountedWithHostExactly(t: Thruk, andFirst: bool, conds: seq<Node>, compiles: string -> bool)
    requires conds != [] && forall c :: c in conds ==> IsGroupEquality(c)
    ensures var n := Group(true, conds); Valid(n, FIELDS_TOTALS, compiles, 0) && ServiceQuery(n).Ok? && HostQuery(n).Ok?
    ensures var n := Group(true, conds);
      (forall service, host ::
         CarriesHost(service, host) && Selects(t, Services, andFirst, ServiceQuery(n).value, service)
         ==> Selects(t, Hosts, andFirst, HostQuery(n).value, host))
      <==> OrsStayWhole({Servicegroup}, n)
  {
    var n := Group(true, conds);
    forall c | c in conds ensures Valid(c, FIELDS_TOTALS, compiles, 1) {}
    BothCompile(n, compiles);
    if OrsStayWhole({Servicegroup}, n) {
      forall service, host |
        CarriesHost(service, host) && Selects(t, Services, andFirst, ServiceQuery(n).value, service)
        ensures Selects(t, Hosts, andFirst, HostQuery(n).value, host)
      {
        ServiceOnlyWithItsHost(t, andFirst, n, compiles, service, host);
      }
    } else {
      var l :| l in conds && !(Prune({Servicegroup}, l).Some? && OrsStayWhole({Servicegroup}, l));
      var service := Row(map[], 0, 0, {l.value.s}, {}, map[], map[]);
      var host := Row(map[], 0, 0, {}, {}, map[], map[]);
      CountedWithoutHost(t, andFirst, conds, l, service, host);
      assert CarriesHost(service, host);
    }
  }

  /** A service in the service group, on a host in no group. */
  lemma CountedWithoutHost(t: Thruk, andFirst: bool, conds: seq<Node>, l: Node, service: Row, host: Row)
    requires (forall c :: c in conds ==> IsGroupEquality(c)) && l in conds && IsGroupEquality(l)
    requires l.field == Servicegroup && l.value.s in service.groups && host.groups == {}
    requires Prune({Servicegroup}, Group(true, conds)).Some?
    requires ServiceQuery(Group(true, conds)).Ok? && HostQuery(Group(true, conds)).Ok?
    ensures Selects(t, Services, andFirst, ServiceQuery(Group(true, conds)).value, service)
    ensures !Selects(t, Hosts, andFirst, HostQuery(Group(true, conds)).value, host)
  {
    var n := Group(true, conds);
    var p := Prune({Servicegroup}, n).value;
    PrunedEqualities(conds);
    assert Holds(t, Services, l, service);
    assert Holds(t, Services, n, service);
    GroupEqualitiesExact(t, Services, andFirst, n, service);
    GroupEqualitiesExact(t, Hosts, andFirst, p, host);
    NoGroupNoHost(t, p, host);
  }

  lemma NoGroupNoHost(t: Thruk, p: Node, host: Row)
    requires GroupEqualities(p) && host.groups == {}
    ensures !Holds(t, Hosts, p, host)
  {
  }

  /** `OR(hostgroup A, servicegroup S)`: the tool counts a service in S whose host it does not count. */
  lemma GroupsUnderOrPart(t: Thruk, andFirst: bool, compiles: string -> bool)
    ensures var n := Group(true, [Leaf(Hostgroup, Eq, One("A")), Leaf(Servicegroup, Eq, One("S"))]);
      var service := Row(map[], 0, 0, {"S"}, {}, map[], map[]);
      var host := Row(map[], 0, 0, {}, {}, map[], map[]);
      && Valid(n, FIELDS_TOTALS, compiles, 0) && ServiceQuery(n).Ok? && HostQuery(n).Ok? && CarriesHost(service, host)
      && Selects(t, Services, andFirst, ServiceQuery(n).value, service)
      && !Selects(t, Hosts, andFirst, HostQuery(n).value, host)
  {
    var a, s := Leaf(Hostgroup, Eq, One("A")), Leaf(Servicegroup, Eq, One("S"));
    var conds := [a, s];
    assert s in conds && a in conds;
    CountedWithHostExactly(t, andFirst, conds, compiles);
    PruneAllHas({Servicegroup}, conds, a);
    CountedWithoutHost(t, andFirst, conds, s, Row(map[], 0, 0, {"S"}, {}, map[], map[]),
                       Row(map[], 0, 0, {}, {}, map[], map[]));
  }
}
