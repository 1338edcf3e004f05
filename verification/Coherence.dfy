/** One filter for two endpoints: `rewrite_custom_var_to_host_custom_var` (filters.py).

    The statistics tools compile the caller's tree for hosts and its rewritten copy for services. A
    service should be selected exactly when its host is. Nothing is assumed about clashing keys: both
    sides must then lose the same leaves. */
module Coherence {
  import opened Basics
  import opened FilterTree
  import opened ThrukQuery
  import opened FilterCompiler
  import opened LeafMeaning
  import opened ParamDictionary
  import opened FilterMeaning
  import Q = QExpression

  /** `rewrite_custom_var_to_host_custom_var`. */
  function Rewrite(n: Node): Node
    decreases n, 1
  {
    match n
    case Leaf(f, op, v) => Leaf(if f == CustomVar then HostCustomVar else f, op, v)
    case Group(isOr, conds) => Group(isOr, RewriteAll(conds))
  }

  function RewriteAll(conds: seq<Node>): (r: seq<Node>)
    ensures |r| == |conds|
    decreases conds, 0
  {
    if conds == [] then [] else [Rewrite(conds[0])] + RewriteAll(conds[1..])
  }

  lemma {:induction false} RewriteAllAppends(a: seq<Node>, b: seq<Node>)
    ensures RewriteAll(a + b) == RewriteAll(a) + RewriteAll(b)
  {
    if a == [] {
      assert a + b == b;
    } else {
      assert (a + b)[1..] == a[1..] + b;
      RewriteAllAppends(a[1..], b);
    }
  }

  lemma {:induction false} RewriteAllMembers(conds: seq<Node>)
    ensures forall c :: c in conds ==> Rewrite(c) in RewriteAll(conds)
    ensures forall r :: r in RewriteAll(conds) ==> exists c :: c in conds && r == Rewrite(c)
  {
    if conds == [] {
    } else {
      RewriteAllMembers(conds[1..]);
      assert conds == [conds[0]] + conds[1..];
      forall r | r in RewriteAll(conds) ensures exists c :: c in conds && r == Rewrite(c) {
        if r == Rewrite(conds[0]) {
          assert conds[0] in conds;
        } else {
          var c :| c in conds[1..] && r == Rewrite(c);
          assert c in conds;
        }
      }
    }
  }

  /** Only host groups and custom variables: what the statistics tools allow. */
  ghost predicate HostLevel(n: Node) {
    match n
    case Leaf(f, _, _) => f in {Hostgroup, CustomVar}
    case Group(_, conds) => forall c :: c in conds ==> HostLevel(c)
  }

  /** A service row with the groups and variables of its host. */
  predicate CarriesHost(service: Row, host: Row) {
    service.hostGroups == host.groups && service.hostVars == host.vars
  }

  // ---- Rewriting commutes with every step of the compiler --------------------------------------------

  lemma {:induction false} RewriteKeepsOr(n: Node)
    ensures HasOr(Rewrite(n)) == HasOr(n)
    decreases n, 1
  {
    if n.Leaf? {
    } else {
      RewriteAllKeepsOr(n.conds);
    }
  }

  lemma {:induction false} RewriteAllKeepsOr(conds: seq<Node>)
    ensures (exists r :: r in RewriteAll(conds) && HasOr(r)) <==> exists c :: c in conds && HasOr(c)
    decreases conds, 0
  {
    if conds == [] {
    } else {
      RewriteKeepsOr(conds[0]);
      RewriteAllKeepsOr(conds[1..]);
      assert conds == [conds[0]] + conds[1..];
    }
  }

  lemma {:induction false} EqLeavesStay(f: Field, items: seq<string>)
    requires f != CustomVar
    ensures RewriteAll(EqLeaves(f, items)) == EqLeaves(f, items)
  {
    if items == [] {
    } else {
      EqLeavesStay(f, items[1..]);
    }
  }

  lemma {:induction false} RewriteThenExpand(n: Node)
    ensures Expand(Rewrite(n)) == Rewrite(Expand(n))
    decreases n, 1
  {
    match n
    case Leaf(f, op, v) =>
      if IsRewritten(f) && op == In && v.Many? {
        EqLeavesStay(f, v.items);
      }
    case Group(_, conds) => RewriteThenExpandAll(conds);
  }

  lemma {:induction false} RewriteThenExpandAll(conds: seq<Node>)
    ensures ExpandAll(RewriteAll(conds)) == RewriteAll(ExpandAll(conds))
    decreases conds, 0
  {
    if conds == [] {
    } else {
      RewriteThenExpand(conds[0]);
      RewriteThenExpandAll(conds[1..]);
    }
  }

  lemma {:induction false} RewriteKeepsLeaves(n: Node)
    ensures Leaves(Rewrite(n)) == RewriteAll(Leaves(n))
    decreases n, 1
  {
    if n.Group? {
      RewriteAllKeepsLeaves(n.conds);
    } else {
      assert Leaves(n)[1..] == [];
    }
  }

  lemma {:induction false} RewriteAllKeepsLeaves(conds: seq<Node>)
    ensures LeavesOf(RewriteAll(conds)) == RewriteAll(LeavesOf(conds))
    decreases conds, 0
  {
    if conds == [] {
    } else {
      RewriteKeepsLeaves(conds[0]);
      RewriteAllKeepsLeaves(conds[1..]);
      RewriteAllAppends(Leaves(conds[0]), LeavesOf(conds[1..]));
    }
  }

  lemma {:induction false} RewriteSplits(conds: seq<Node>)
    ensures OrFree(RewriteAll(conds)) == RewriteAll(OrFree(conds))
    ensures WithOr(RewriteAll(conds)) == RewriteAll(WithOr(conds))
  {
    if conds == [] {
    } else {
      RewriteKeepsOr(conds[0]);
      RewriteSplits(conds[1..]);
      RewriteAllAppends([conds[0]], OrFree(conds[1..]));
      RewriteAllAppends([conds[0]], WithOr(conds[1..]));
      assert [conds[0]][1..] == [];
    }
  }

  /** Both parts of the compiled query come from corresponding parts of the two trees. */
  lemma RewriteKeepsRoutes(e: Node)
    ensures BracketLeaves(Rewrite(e)) == RewriteAll(BracketLeaves(e))
    ensures TextTree(Rewrite(e)) == if TextTree(e).None? then None else Some(Rewrite(TextTree(e).value))
  {
    RewriteKeepsOr(e);
    RewriteKeepsLeaves(e);
    if HasOr(e) && !e.isOr {
      RewriteSplits(e.conds);
      RewriteAllKeepsLeaves(OrFree(e.conds));
    }
  }

  // ---- Keys and parameters -------------------------------------------------------------------------

  predicate HostLevelLeaf(l: Node) {
    l.Leaf? && ShapeOk(l.field, l.op, l.value) && (l.field == CustomVar || (l.field == Hostgroup && l.op != In))
  }

  lemma PrefixIsInjective(a: string, b: string)
    ensures HOST_PREFIX + a == HOST_PREFIX + b <==> a == b
  {
    assert (HOST_PREFIX + a)[|HOST_PREFIX|..] == a && (HOST_PREFIX + b)[|HOST_PREFIX|..] == b;
  }

  /** Two leaves share a key on services exactly when they share one on hosts. */
  lemma SameKeysBothSides(a: Node, b: Node)
    requires HostLevelLeaf(a) && HostLevelLeaf(b)
    ensures SameKey(Services, Rewrite(a), Rewrite(b)) <==> SameKey(Hosts, a, b)
  {
    if a.field == CustomVar && b.field == CustomVar {
      PrefixIsInjective(Upper(a.value.name), Upper(b.value.name));
    }
  }

  lemma LeafAgrees(t: Thruk, l: Node, service: Row, host: Row)
    requires HostLevelLeaf(l) && CarriesHost(service, host)
    ensures ParamOf(Hosts, l).Ok? && ParamOf(Services, Rewrite(l)).Ok?
    ensures LeafParamHolds(t, Services, Rewrite(l), service) <==> LeafParamHolds(t, Hosts, l, host)
  {
    if l.field == CustomVar {
      UpperHost(Upper(l.value.name));
    }
  }

  lemma OverwrittenBothSides(l: Node, later: seq<Node>)
    requires HostLevelLeaf(l) && forall m :: m in later ==> HostLevelLeaf(m)
    ensures Overwritten(Services, Rewrite(l), RewriteAll(later)) <==> Overwritten(Hosts, l, later)
  {
    RewriteAllMembers(later);
    forall m | m in later ensures SameKey(Services, Rewrite(m), Rewrite(l)) <==> SameKey(Hosts, m, l) {
      SameKeysBothSides(m, l);
    }
  }

  /** The same leaves are overwritten on both sides. */
  lemma {:induction false} SurvivorsBothSides(leaves: seq<Node>)
    requires forall l :: l in leaves ==> HostLevelLeaf(l)
    ensures Survivors(Services, RewriteAll(leaves)) == RewriteAll(Survivors(Hosts, leaves))
  {
    if leaves == [] {
    } else {
      SurvivorsBothSides(leaves[1..]);
      OverwrittenBothSides(leaves[0], leaves[1..]);
      RewriteAllAppends([leaves[0]], Survivors(Hosts, leaves[1..]));
      assert [leaves[0]][1..] == [];
      assert [] + RewriteAll(Survivors(Hosts, leaves[1..])) == RewriteAll([] + Survivors(Hosts, leaves[1..])) by {
        assert [] + Survivors(Hosts, leaves[1..]) == Survivors(Hosts, leaves[1..]);
      }
    }
  }

  lemma ParamsAgree(t: Thruk, leaves: seq<Node>, service: Row, host: Row)
    requires CarriesHost(service, host) && forall l :: l in leaves ==> HostLevelLeaf(l)
    requires AddLeaves(Hosts, map[], leaves).Ok? && AddLeaves(Services, map[], RewriteAll(leaves)).Ok?
    ensures ParamsHold(t, Services, AddLeaves(Services, map[], RewriteAll(leaves)).value, service)
       <==> ParamsHold(t, Hosts, AddLeaves(Hosts, map[], leaves).value, host)
  {
    var kept := Survivors(Hosts, leaves);
    SurvivorsBothSides(leaves);
    SurvivorsAreLeaves(Hosts, leaves);
    ParamsAreSurvivors(t, Hosts, leaves, host);
    ParamsAreSurvivors(t, Services, RewriteAll(leaves), service);
    RewriteAllMembers(kept);
    forall l | l in kept
      ensures LeafParamHolds(t, Services, Rewrite(l), service) <==> LeafParamHolds(t, Hosts, l, host)
    {
      LeafAgrees(t, l, service, host);
    }
  }

  lemma {:induction false} AlwaysCompiles(leaves: seq<Node>, hosts: Params, services: Params)
    requires forall l :: l in leaves ==> HostLevelLeaf(l)
    ensures AddLeaves(Hosts, hosts, leaves).Ok? && AddLeaves(Services, services, RewriteAll(leaves)).Ok?
    decreases |leaves|
  {
    if leaves == [] {
    } else {
      assert HostLevelLeaf(leaves[0]);
      var (k, p) := ParamOf(Hosts, leaves[0]).value;
      var (j, q) := ParamOf(Services, Rewrite(leaves[0])).value;
      AlwaysCompiles(leaves[1..], hosts[k := p], services[j := q]);
    }
  }

  // ---- The text ------------------------------------------------------------------------------------

  /** After the rewrite of `in` all leaves are host-level ones. */
  ghost predicate HostLevelTree(n: Node) {
    match n
    case Leaf(_, _, _) => HostLevelLeaf(n)
    case Group(_, conds) => conds != [] && forall c :: c in conds ==> HostLevelTree(c)
  }

  lemma {:induction false} HostLevelTrees(e: Node)
    requires HostLevel(e) && WellFormed(e) && NoGroupIn(e)
    ensures HostLevelTree(e) && WellFormed(Rewrite(e))
  {
    if e.Leaf? {
    } else {
      forall c | c in e.conds ensures HostLevelTree(c) && WellFormed(Rewrite(c)) {
        HostLevelTrees(c);
      }
      RewriteAllMembers(e.conds);
    }
  }

  lemma AtomAgrees(t: Thruk, l: Node, service: Row, host: Row)
    requires HostLevelLeaf(l) && CarriesHost(service, host)
    ensures AtomHolds(t, Services, AtomFor(Services, Rewrite(l).field, l.op, l.value), service)
       <==> AtomHolds(t, Hosts, AtomFor(Hosts, l.field, l.op, l.value), host)
  {
    if l.field == CustomVar {
      UpperHost(Upper(l.value.name));
    }
  }

  /** The atoms' conditions on a service and on its host. */
  ghost predicate Conditions(t: Thruk, service: Row, host: Row, onService: QAtom -> bool, onHost: QAtom -> bool) {
    && CarriesHost(service, host)
    && (forall a :: onService(a) <==> AtomHolds(t, Services, a, service))
    && (forall a :: onHost(a) <==> AtomHolds(t, Hosts, a, host))
  }

  ghost predicate AnyMeans(qs: seq<Q.QNode<QAtom>>, holds: QAtom -> bool) {
    exists q :: q in qs && Q.Means(q, holds)
  }

  ghost predicate AllMean(qs: seq<Q.QNode<QAtom>>, holds: QAtom -> bool) {
    forall q :: q in qs ==> Q.Means(q, holds)
  }

  lemma SplitHead(q: Q.QNode<QAtom>, qs: seq<Q.QNode<QAtom>>, holds: QAtom -> bool)
    ensures AnyMeans([q] + qs, holds) <==> Q.Means(q, holds) || AnyMeans(qs, holds)
    ensures AllMean([q] + qs, holds) <==> Q.Means(q, holds) && AllMean(qs, holds)
  {
    forall x ensures x in [q] + qs <==> x == q || x in qs {}
  }

  lemma {:induction false} TextAgrees(t: Thruk, n: Node, service: Row, host: Row, onService: QAtom -> bool,
                                      onHost: QAtom -> bool)
    requires HostLevelTree(n) && Conditions(t, service, host, onService, onHost)
    ensures Q.Means(ToQ(Services, Rewrite(n)), onService) <==> Q.Means(ToQ(Hosts, n), onHost)
    decreases n, 1
  {
    if n.Leaf? {
      AtomAgrees(t, n, service, host);
    } else {
      TextsAgree(t, n.conds, service, host, onService, onHost);
      assert AnyMeans(ToQs(Hosts, n.conds), onHost) <==> AnyMeans(ToQs(Services, RewriteAll(n.conds)), onService);
      assert AllMean(ToQs(Hosts, n.conds), onHost) <==> AllMean(ToQs(Services, RewriteAll(n.conds)), onService);
    }
  }

  lemma {:induction false} TextsAgree(t: Thruk, conds: seq<Node>, service: Row, host: Row,
                                      onService: QAtom -> bool, onHost: QAtom -> bool)
    requires Conditions(t, service, host, onService, onHost) && forall c :: c in conds ==> HostLevelTree(c)
    ensures AnyMeans(ToQs(Services, RewriteAll(conds)), onService) <==> AnyMeans(ToQs(Hosts, conds), onHost)
    ensures AllMean(ToQs(Services, RewriteAll(conds)), onService) <==> AllMean(ToQs(Hosts, conds), onHost)
    decreases conds, 0
  {
    if conds == [] {
    } else {
      TextAgrees(t, conds[0], service, host, onService, onHost);
      TextsAgree(t, conds[1..], service, host, onService, onHost);
      assert RewriteAll(conds)[1..] == RewriteAll(conds[1..]);
      SplitHead(ToQ(Services, Rewrite(conds[0])), ToQs(Services, RewriteAll(conds[1..])), onService);
      SplitHead(ToQ(Hosts, conds[0]), ToQs(Hosts, conds[1..]), onHost);
    }
  }

  lemma PrintedTextAgrees(t: Thruk, andFirst: bool, n: Node, service: Row, host: Row)
    requires HostLevelTree(n) && WellFormed(n) && WellFormed(Rewrite(n)) && CarriesHost(service, host)
    ensures Q.TextHolds(andFirst, BuildQ(Services, Rewrite(n)), (a: QAtom) => AtomHolds(t, Services, a, service))
       <==> Q.TextHolds(andFirst, BuildQ(Hosts, n), (a: QAtom) => AtomHolds(t, Hosts, a, host))
  {
    var onService := (a: QAtom) => AtomHolds(t, Services, a, service);
    var onHost := (a: QAtom) => AtomHolds(t, Hosts, a, host);
    TextAgrees(t, n, service, host, onService, onHost);
    ToQNonEmpty(Services, Rewrite(n));
    ToQNonEmpty(Hosts, n);
    Q.PrintKeepsMeaning(andFirst, ToQ(Services, Rewrite(n)), true, onService);
    Q.PrintKeepsMeaning(andFirst, ToQ(Hosts, n), true, onHost);
  }

  // ---- Coherence -----------------------------------------------------------------------------------

  lemma {:induction false} ExpandStaysHostLevel(n: Node)
    requires HostLevel(n)
    ensures HostLevel(Expand(n))
    decreases n, 1
  {
    if n.Leaf? {
    } else {
      ExpandAllStaysHostLevel(n.conds);
    }
  }

  lemma {:induction false} ExpandAllStaysHostLevel(conds: seq<Node>)
    requires forall c :: c in conds ==> HostLevel(c)
    ensures forall c :: c in ExpandAll(conds) ==> HostLevel(c)
    decreases conds, 0
  {
    if conds == [] {
    } else {
      ExpandStaysHostLevel(conds[0]);
      ExpandAllStaysHostLevel(conds[1..]);
    }
  }

  lemma {:induction false} LeavesAreHostLevel(n: Node)
    requires HostLevelTree(n)
    ensures forall l :: l in Leaves(n) ==> HostLevelLeaf(l)
    decreases n, 1
  {
    if n.Leaf? {
    } else {
      LeavesOfAreHostLevel(n.conds);
    }
  }

  lemma {:induction false} LeavesOfAreHostLevel(conds: seq<Node>)
    requires forall c :: c in conds ==> HostLevelTree(c)
    ensures forall l :: l in LeavesOf(conds) ==> HostLevelLeaf(l)
    decreases conds, 0
  {
    if conds == [] {
    } else {
      LeavesAreHostLevel(conds[0]);
      LeavesOfAreHostLevel(conds[1..]);
    }
  }

  lemma RoutesAreHostLevel(e: Node)
    requires HostLevelTree(e)
    ensures forall l :: l in BracketLeaves(e) ==> HostLevelLeaf(l)
    ensures TextTree(e).Some? ==> HostLevelTree(TextTree(e).value)
  {
    LeavesAreHostLevel(e);
    if e.Group? {
      PartsOfList(e.conds);
      LeavesOfAreHostLevel(OrFree(e.conds));
    }
  }

  /** A service is selected by the query compiled for services exactly when its host is selected by the
      query compiled for hosts, whatever the route, the reader's precedence, and the clashing keys. */
  lemma ServiceAgreesWithItsHost(t: Thruk, andFirst: bool, n: Node, service: Row, host: Row)
    requires WellFormed(n) && HostLevel(n) && CarriesHost(service, host)
    ensures Compile(Hosts, n).Ok? && Compile(Services, Rewrite(n)).Ok?
    ensures Selects(t, Services, andFirst, Compile(Services, Rewrite(n)).value, service)
       <==> Selects(t, Hosts, andFirst, Compile(Hosts, n).value, host)
  {
    var e := Expand(n);
    ExpandIsWellFormed(n);
    ExpandStaysHostLevel(n);
    HostLevelTrees(e);
    RoutesAreHostLevel(e);
    RewriteThenExpand(n);
    RewriteKeepsRoutes(e);
    CompileSplits(Hosts, n);
    CompileSplits(Services, Rewrite(n));
    AlwaysCompiles(BracketLeaves(e), map[], map[]);
    ParamsAgree(t, BracketLeaves(e), service, host);
    if TextTree(e).Some? {
      PartsAreWellFormed(e);
      RewrittenTextIsWellFormed(e);
      PrintedTextAgrees(t, andFirst, TextTree(e).value, service, host);
    }
  }

  lemma RewrittenTextIsWellFormed(e: Node)
    requires WellFormed(e) && NoGroupIn(e) && HostLevel(e) && TextTree(e).Some?
    ensures WellFormed(Rewrite(TextTree(e).value))
  {
    PartsAreWellFormed(e);
    if e.Group? {
      PartsOfList(e.conds);
    }
    HostLevelTrees(TextTree(e).value);
  }
}
