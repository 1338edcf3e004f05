/** The query of `thruk_alerts` (history.py) with its narrowed type.

    The filter is compiled for the logs, where the `q=` text knows the names of host states only. A service
    state listed with `in` goes to the text, and is lost. */
module AlertQuery {
  import opened Basics
  import opened FilterTree
  import opened ThrukQuery
  import opened FilterCompiler
  import opened LeafMeaning
  import opened ParamDictionary
  import opened FilterMeaning
  import opened LogFilter
  import opened AlertType
  import Q = QExpression

  // ---- The direct part of an alert filter ----------------------------------------------------------------

  /** The direct part is flat: leaves and OR groups. */
  predicate IsFlat(nodes: seq<Node>) {
    forall d :: d in nodes ==> d.Leaf? || d.isOr
  }

  lemma {:induction false} DirectIsFlat(n: Node)
    ensures IsFlat(Direct(n))
    decreases n, 1
  {
    if n.Group? && !n.isOr {
      DirectAllIsFlat(n.conds);
    }
  }

  lemma {:induction false} DirectAllIsFlat(conds: seq<Node>)
    ensures IsFlat(DirectAll(conds))
    decreases conds, 0
  {
    if conds == [] {
    } else {
      DirectIsFlat(conds[0]);
      DirectAllIsFlat(conds[1..]);
    }
  }

  lemma {:induction false} ClassesOfAppend(a: seq<Node>, b: seq<Node>)
    ensures ClassesOf(a + b) == ClassesOf(a) + ClassesOf(b)
  {
    if a == [] {
      assert a + b == b;
    } else {
      assert (a + b)[1..] == a[1..] + b;
      ClassesOfAppend(a[1..], b);
    }
  }

  /** Taking the lookup leaves out changes no class. */
  lemma {:induction false} ClassesOfDirect(n: Node)
    ensures ClassesOf(Direct(n)) == Classes(n)
    decreases n, 1
  {
    match n
    case Leaf(_, _, _) => assert [n][1..] == [];
    case Group(true, _) => assert [n][1..] == [];
    case Group(false, conds) => ClassesOfDirectAll(conds);
  }

  lemma {:induction false} ClassesOfDirectAll(conds: seq<Node>)
    ensures ClassesOf(DirectAll(conds)) == ClassesOf(conds)
    decreases conds, 0
  {
    if conds == [] {
    } else {
      ClassesOfDirect(conds[0]);
      ClassesOfDirectAll(conds[1..]);
      ClassesOfAppend(Direct(conds[0]), DirectAll(conds[1..]));
    }
  }

  lemma {:induction false} ClassesOfHas(nodes: seq<Node>, d: Node)
    requires d in nodes
    ensures Classes(d) <= ClassesOf(nodes)
  {
    if d != nodes[0] {
      ClassesOfHas(nodes[1..], d);
    }
  }

  predicate IsStateIn(l: Node) {
    l.Leaf? && l.field == State && l.op == In
  }

  /** Some state is listed with `in`, reached through AND groups only. */
  ghost predicate ListsState(n: Node) {
    exists m :: Reached(n, m) && IsStateIn(m)
  }

  /** The leaves reached are those of the direct part, and the lookup leaves. */
  lemma {:induction false} ReachedIsDirect(n: Node, m: Node)
    requires m.Leaf? && !IsLookup(m.field)
    ensures Reached(n, m) <==> m in Direct(n)
    decreases n, 1
  {
    match n
    case Leaf(_, _, _) =>
    case Group(true, _) =>
    case Group(false, conds) => ReachedIsDirectAll(conds, m);
  }

  lemma {:induction false} ReachedIsDirectAll(conds: seq<Node>, m: Node)
    requires m.Leaf? && !IsLookup(m.field)
    ensures (exists c :: c in conds && Reached(c, m)) <==> m in DirectAll(conds)
    decreases conds, 0
  {
    if conds == [] {
    } else {
      ReachedIsDirect(conds[0], m);
      ReachedIsDirectAll(conds[1..], m);
      assert conds == [conds[0]] + conds[1..];
    }
  }

  // ---- States in the text ----------------------------------------------------------------------------------

  /** The compiler's view of a flat list of conditions. */
  lemma FlatRoutes(nodes: seq<Node>)
    requires nodes != [] && IsFlat(nodes)
    ensures var e, kids := Expand(Conjoin(nodes)), ExpandAll(nodes);
      TextTree(e) == if WithOr(kids) == [] then None else Some(Conjoin(WithOr(kids)))
  {
    var direct := Conjoin(nodes);
    RoutesOfKids(Expand(direct));
    KidsExpand(direct);
    if |nodes| == 1 {
      assert nodes == [nodes[0]] && nodes[0] in nodes;
    }
    assert Kids(direct) == nodes;
  }

  lemma {:induction false} ExpandKeepsState(n: Node)
    requires !ContainsState(n)
    ensures forall l :: l in Leaves(Expand(n)) ==> !(l.Leaf? && l.field == State)
    decreases n, 1
  {
    match n
    case Leaf(f, op, v) =>
      if IsRewritten(f) && op == In && v.Many? {
        forall l | l in Leaves(Expand(n)) ensures !(l.Leaf? && l.field == State) {
          var i := EqLeafFrom(f, v.items, l);
        }
      }
    case Group(_, conds) => ExpandAllKeepsState(conds);
  }

  lemma {:induction false} ExpandAllKeepsState(conds: seq<Node>)
    requires forall c :: c in conds ==> !ContainsState(c)
    ensures forall l :: l in LeavesOf(ExpandAll(conds)) ==> !(l.Leaf? && l.field == State)
    decreases conds, 0
  {
    if conds == [] {
    } else {
      ExpandKeepsState(conds[0]);
      ExpandAllKeepsState(conds[1..]);
    }
  }

  lemma {:induction false} EqLeafFrom(f: Field, items: seq<string>, l: Node) returns (i: nat)
    requires l in LeavesOf(EqLeaves(f, items))
    ensures i < |items| && l == Leaf(f, Eq, One(items[i]))
  {
    var conds := EqLeaves(f, items);
    if l in Leaves(conds[0]) {
      i := 0;
    } else {
      assert conds[1..] == EqLeaves(f, items[1..]);
      var j := EqLeafFrom(f, items[1..], l);
      i := j + 1;
    }
  }

  /** A state leaf in the text comes from an `in` list, and names a state of the kind narrowed to. */
  lemma StateInText(nodes: seq<Node>, only: Class, l: Node)
    requires nodes != [] && IsFlat(nodes) && only != Ambiguous && ClassesOf(nodes) <= {only}
    requires TextTree(Expand(Conjoin(nodes))).Some? && l in Leaves(TextTree(Expand(Conjoin(nodes))).value)
    requires l.Leaf? && l.field == State
    ensures l.op == Eq && l.value.One? && Classify(l.value.s) == only
    ensures exists d :: d in nodes && IsStateIn(d)
  {
    var kids := ExpandAll(nodes);
    FlatRoutes(nodes);
    ConjoinLeaves(WithOr(kids), l);
    var m :| m in WithOr(kids) && l in Leaves(m);
    WithOrHas(kids, m);
    ExpandAllMembers(nodes);
    var d :| d in nodes && m == Expand(d);
    ClassesOfHas(nodes, d);
    StateInOne(d, only, l);
  }

  lemma {:induction false} WithOrHas(conds: seq<Node>, m: Node)
    ensures m in WithOr(conds) <==> m in conds && HasOr(m)
  {
    if conds == [] {
    } else {
      WithOrHas(conds[1..], m);
      assert conds == [conds[0]] + conds[1..];
    }
  }

  lemma StateInOne(d: Node, only: Class, l: Node)
    requires (d.Leaf? || d.isOr) && only != Ambiguous && Classes(d) <= {only} && HasOr(Expand(d))
    requires l in Leaves(Expand(d)) && l.Leaf? && l.field == State
    ensures IsStateIn(d) && l.op == Eq && l.value.One? && Classify(l.value.s) == only
  {
    if d.Group? {
      assert Ambiguous !in Classes(d);
      ExpandKeepsState(d);
    } else {
      var i := EqLeafFrom(d.field, d.value.items, l);
      assert Classify(d.value.items[i]) in LeafClasses(d.op, d.value);
    }
  }

  lemma HostNameIsFaithful(ctx: Context, s: string)
    requires Classify(s) == HostOnly
    ensures FaithfulText(ctx, State, Eq, One(s))
  {
  }

  // ---- The narrowed query ----------------------------------------------------------------------------------

  function DirectPart(n: Node): Node
    requires Direct(n) != []
  {
    Conjoin(Direct(n))
  }

  /** Everything but the states in the text is compiled faithfully and without clashes. */
  ghost predicate FaithfulBesideStates(n: Node)
    requires Direct(n) != []
  {
    var e := Expand(DirectPart(n));
    && NoClash(Logs, BracketLeaves(e)) && (forall l :: l in BracketLeaves(e) ==> FaithfulBracketNode(Logs, l))
    && (TextTree(e).Some? ==>
          forall l :: l in Leaves(TextTree(e).value) && !(l.Leaf? && l.field == State) ==> FaithfulTextNode(Logs, l))
  }

  /** A filter on alerts whose type is narrowed. */
  ghost predicate Narrowed(n: Node) {
    && WellFormed(n) && !LogFilter.Rejected(n) && Inferred(n).Some? && Direct(n) != []
    && Compile(Logs, DirectPart(n)).Ok? && FaithfulBesideStates(n)
  }

  /** What `thruk_alerts` fetches: rows of the type narrowed to that the direct part's query selects, on hosts
      that meet the lookup part. */
  ghost predicate Fetched(t: Thruk, andFirst: bool, n: Node, row: Row, kind: Class)
    requires Narrowed(n)
  {
    && Selects(t, Logs, andFirst, Compile(Logs, DirectPart(n)).value, row)
    && kind == Inferred(n).value && PartHolds(t, Logs, Wrap(LookupLeaves(n)), row)
  }

  lemma NarrowedClasses(n: Node)
    requires Inferred(n).Some?
    ensures Inferred(n).value != Ambiguous && ClassesOf(Direct(n)) == {Inferred(n).value} && IsFlat(Direct(n))
  {
    ClassesOfDirect(n);
    DirectIsFlat(n);
  }

  lemma TextIsFaithful(n: Node)
    requires Narrowed(n) && (Inferred(n) == Some(HostOnly) || !ListsState(n))
    ensures FaithfulTextTree(Logs, Expand(DirectPart(n)))
  {
    var e := Expand(DirectPart(n));
    NarrowedClasses(n);
    if TextTree(e).Some? {
      forall l | l in Leaves(TextTree(e).value) ensures FaithfulTextNode(Logs, l) {
        if l.Leaf? && l.field == State {
          StateInText(Direct(n), Inferred(n).value, l);
          if Inferred(n) == Some(HostOnly) {
            HostNameIsFaithful(Logs, l.value.s);
          } else {
            var d :| d in Direct(n) && IsStateIn(d);
            ReachedIsDirect(n, d);
            assert false;
          }
        }
      }
    }
  }

  lemma DirectPartIsWellFormed(n: Node)
    requires WellFormed(n) && Direct(n) != []
    ensures WellFormed(DirectPart(n))
  {
    PartsStayWellFormed(n);
  }

  /** Narrowed to hosts, or with no state listed: what is fetched is exactly what the filter means with its state
      names taken at their kind. */
  lemma NarrowedFetchesTyped(t: Thruk, andFirst: bool, n: Node, row: Row, kind: Class)
    requires Narrowed(n) && (Inferred(n) == Some(HostOnly) || !ListsState(n))
    ensures Fetched(t, andFirst, n, row, kind) <==> Typed(t, n, row, kind)
  {
    TextIsFaithful(n);
    DirectPartIsWellFormed(n);
    CompileKeepsMeaning(t, Logs, andFirst, DirectPart(n), row);
    SplitKeepsMeaning(t, Logs, n, row);
    NarrowedIsTyped(t, n, row, kind);
  }

  // ---- Service states listed with `in` ---------------------------------------------------------------------

  /** Thruk matches no row on a state given by a service's name. */
  ghost predicate KnowsNoServiceName(t: Thruk) {
    forall s, i :: Classify(s) == ServiceOnly ==> !t.odd(One(s), i)
  }

  lemma NamesAreNoDigits(s: string)
    requires Classify(s) != Ambiguous
    ensures !IsDigits(s)
  {
    if IsDigits(s) {
      LowerDigits(s);
      assert false;
    }
  }

  lemma ServiceNameIsRaw(s: string)
    requires Classify(s) == ServiceOnly
    ensures QState(Logs, s) == Raw(s) && ArgCode(Raw(s)) == None
  {
    NamesAreNoDigits(s);
  }

  lemma {:induction false} ListedNamesMeanNothing(t: Thruk, items: seq<string>, holds: QAtom -> bool, row: Row)
    requires KnowsNoServiceName(t) && forall i :: 0 <= i < |items| ==> Classify(items[i]) == ServiceOnly
    requires forall a :: holds(a) <==> AtomHolds(t, Logs, a, row)
    ensures forall q :: q in ToQs(Logs, EqLeaves(State, items)) ==> !Q.Means(q, holds)
  {
    if items == [] {
    } else {
      ListedNamesMeanNothing(t, items[1..], holds, row);
      ServiceNameIsRaw(items[0]);
    }
  }

  /** With a service state listed, the query selects nothing at all. */
  lemma ListedServiceStateSelectsNothing(t: Thruk, andFirst: bool, n: Node, row: Row)
    requires Narrowed(n) && Inferred(n) == Some(ServiceOnly) && ListsState(n) && KnowsNoServiceName(t)
    ensures !Selects(t, Logs, andFirst, Compile(Logs, DirectPart(n)).value, row)
  {
    var nodes, holds := Direct(n), (a: QAtom) => AtomHolds(t, Logs, a, row);
    var m :| Reached(n, m) && IsStateIn(m);
    ReachedIsDirect(n, m);
    NarrowedClasses(n);
    ClassesOfHas(nodes, m);
    PartsStayWellFormed(n);
    forall i | 0 <= i < |m.value.items| ensures Classify(m.value.items[i]) == ServiceOnly {
      assert Classify(m.value.items[i]) in LeafClasses(m.op, m.value);
    }
    ListedNamesMeanNothing(t, m.value.items, holds, row);
    assert !Q.Means(ToQ(Logs, Expand(m)), holds);
    TextNeedsEach(nodes, m, holds);
    if Selects(t, Logs, andFirst, Compile(Logs, DirectPart(n)).value, row) {
      TextMustMean(t, andFirst, n, row);
    }
  }

  lemma TextNeedsEach(nodes: seq<Node>, m: Node, holds: QAtom -> bool)
    requires nodes != [] && IsFlat(nodes) && m in nodes && HasOr(Expand(m)) && !Q.Means(ToQ(Logs, Expand(m)), holds)
    ensures var e := Expand(Conjoin(nodes)); TextTree(e).Some? && !Q.Means(ToQ(Logs, TextTree(e).value), holds)
  {
    var kids := ExpandAll(nodes);
    FlatRoutes(nodes);
    ExpandAllMembers(nodes);
    WithOrHas(kids, Expand(m));
    ConjoinMeans(Logs, WithOr(kids), holds);
  }

  lemma TextMustMean(t: Thruk, andFirst: bool, n: Node, row: Row)
    requires Narrowed(n) && TextTree(Expand(DirectPart(n))).Some?
    requires Selects(t, Logs, andFirst, Compile(Logs, DirectPart(n)).value, row)
    ensures Q.Means(ToQ(Logs, TextTree(Expand(DirectPart(n))).value), (a: QAtom) => AtomHolds(t, Logs, a, row))
  {
    var direct := DirectPart(n);
    DirectPartIsWellFormed(n);
    CompileSplits(Logs, direct);
    ExpandIsWellFormed(direct);
    PartsAreWellFormed(Expand(direct));
    var text := TextTree(Expand(direct)).value;
    ToQNonEmpty(Logs, text);
    Q.PrintKeepsMeaning(andFirst, ToQ(Logs, text), true, (a: QAtom) => AtomHolds(t, Logs, a, row));
  }

  /** Narrowed to services, the query is right on every data set if and only if no state is listed with `in`, or
      the filter means no row anyway. */
  lemma ServicesFetchedExactly(t: Thruk, andFirst: bool, n: Node)
    requires Narrowed(n) && Inferred(n) == Some(ServiceOnly) && KnowsNoServiceName(t)
    ensures (forall row, kind :: Fetched(t, andFirst, n, row, kind) <==> Typed(t, n, row, kind))
        <==> !ListsState(n) || forall row, kind :: !Typed(t, n, row, kind)
  {
    if ListsState(n) {
      forall row, kind ensures !Fetched(t, andFirst, n, row, kind) {
        if Selects(t, Logs, andFirst, Compile(Logs, DirectPart(n)).value, row) {
          ListedServiceStateSelectsNothing(t, andFirst, n, row);
        }
      }
    } else {
      forall row, kind ensures Fetched(t, andFirst, n, row, kind) <==> Typed(t, n, row, kind) {
        NarrowedFetchesTyped(t, andFirst, n, row, kind);
      }
    }
  }

  // ---- A host and a list of service states -------------------------------------------------------------------

  /** A list of service state names, for one host: the shape the tools' own examples show. */
  predicate IsListing(h: Node, s: Node) {
    && h.Leaf? && h.field == Host && h.op == Eq && h.value.One?
    && s.Leaf? && s.field == State && s.op == In && s.value.Many? && s.value.items != []
    && forall i :: 0 <= i < |s.value.items| ==> Classify(s.value.items[i]) == ServiceOnly
  }

  /** Every alert such a filter means is lost. */
  lemma ListingLosesEveryAlert(t: Thruk, andFirst: bool, h: Node, s: Node, compiles: string -> bool, row: Row)
    requires IsListing(h, s) && KnowsNoServiceName(t)
    ensures var n := Group(false, [h, s]);
      && Valid(n, {Host, Service, State, Hostgroup, CustomVar, Since, Until}, compiles, 0)
      && Narrowed(n) && Inferred(n) == Some(ServiceOnly)
      && (Holds(t, Logs, n, row) <==> Typed(t, n, row, ServiceOnly)) && !Fetched(t, andFirst, n, row, ServiceOnly)
  {
    var n := Group(false, [h, s]);
    ListingIsValid(h, s, compiles);
    ListingIsSplit(h, s);
    ListingIsNarrowed(h, s);
    assert Reached(s, s) && s in n.conds && Reached(n, s);
    ListedServiceStateSelectsNothing(t, andFirst, n, row);
    NarrowedIsTyped(t, n, row, ServiceOnly);
  }

  lemma ListingIsValid(h: Node, s: Node, compiles: string -> bool)
    requires IsListing(h, s)
    ensures Valid(Group(false, [h, s]), FIELDS_ALERTS, compiles, 0)
  {
    assert Valid(h, FIELDS_ALERTS, compiles, 1) && Valid(s, FIELDS_ALERTS, compiles, 1);
  }

  lemma ListingIsSplit(h: Node, s: Node)
    requires IsListing(h, s)
    ensures Direct(Group(false, [h, s])) == [h, s] && LookupLeaves(Group(false, [h, s])) == []
    ensures !LogFilter.Rejected(Group(false, [h, s])) && Inferred(Group(false, [h, s])) == Some(ServiceOnly)
  {
    ListSplits(s, []);
    ListSplits(h, [s]);
    assert [s] + [] == [s] && [h] + [s] == [h, s];
    ListingClasses(h, s);
  }

  lemma ListingClasses(h: Node, s: Node)
    requires IsListing(h, s)
    ensures ClassesOf([h, s]) == {ServiceOnly}
  {
    assert [h, s][1..] == [s] && [s][1..] == [];
    assert Classify(s.value.items[0]) in LeafClasses(In, s.value);
    assert LeafClasses(In, s.value) == {ServiceOnly};
    assert ClassesOf([]) == {} && ClassesOf([s]) == {ServiceOnly};
  }

  lemma ListingIsNarrowed(h: Node, s: Node)
    requires IsListing(h, s)
    ensures Narrowed(Group(false, [h, s]))
  {
    var n := Group(false, [h, s]);
    ListingIsSplit(h, s);
    ListingRoutes(h, s);
    CompileRaisesExactly(Logs, n);
  }

  lemma ListingRoutes(h: Node, s: Node)
    requires IsListing(h, s)
    ensures var e := Expand(Group(false, [h, s]));
      && BracketLeaves(e) == [h] && TextTree(e) == Some(Expand(s))
      && forall l :: l in Leaves(Expand(s)) ==> l.Leaf? && l.field == State
  {
    var n, l := Group(false, [h, s]), Expand(s);
    RoutesOfKids(Expand(n));
    KidsExpand(n);
    ExpandedPair(h, s);
    SplitPair(h, l);
    forall x | x in Leaves(l) ensures x.Leaf? && x.field == State {
      var i := EqLeafFrom(State, s.value.items, x);
    }
  }

  lemma ExpandedPair(h: Node, s: Node)
    ensures ExpandAll([h, s]) == [Expand(h), Expand(s)]
  {
    assert [h, s][1..] == [s] && [s][1..] == [] && ExpandAll([]) == [];
    assert ExpandAll([s]) == [Expand(s)];
  }

  lemma SplitPair(h: Node, l: Node)
    requires h.Leaf? && HasOr(l)
    ensures OrFree([h, l]) == [h] && WithOr([h, l]) == [l] && LeavesOf([h]) == [h]
  {
    assert [h, l][1..] == [l] && [l][1..] == [] && [h][1..] == [] && LeavesOf([]) == [];
    assert OrFree([]) == [] && WithOr([]) == [];
    assert OrFree([l]) == [] && WithOr([l]) == [l];
    assert LeavesOf([h]) == [h] + [];
  }

  /** An alert of the host in one of the states listed is meant, and lost. */
  lemma ListedAlertIsLost(t: Thruk, andFirst: bool, h: Node, s: Node, compiles: string -> bool, row: Row, i: nat)
    requires IsListing(h, s) && KnowsNoServiceName(t) && i < |s.value.items|
    requires TextOf(row, Host) == h.value.s && Some(row.state) == SvcStateInt(Lower(s.value.items[i]))
    ensures var n := Group(false, [h, s]);
      Narrowed(n) && Typed(t, n, row, ServiceOnly) && !Fetched(t, andFirst, n, row, ServiceOnly)
  {
    ListingLosesEveryAlert(t, andFirst, h, s, compiles, row);
    assert OneHolds(t, Logs, State, Eq, s.value.items[i], row);
    assert Holds(t, Logs, h, row) && Holds(t, Logs, s, row);
  }

  /** For one: a CRITICAL alert of web-01, asked for with `state in ["critical", "unknown"]`. */
  lemma CriticalIsLost(t: Thruk, andFirst: bool, compiles: string -> bool)
    requires KnowsNoServiceName(t)
    ensures var n := Group(false, [Leaf(Host, Eq, One("web-01")), Leaf(State, In, Many(["critical", "unknown"]))]);
      var row := Row(map[Host := "web-01"], 2, 0, {}, {}, map[], map[]);
      Narrowed(n) && Typed(t, n, row, ServiceOnly) && !Fetched(t, andFirst, n, row, ServiceOnly)
  {
    CriticalListing(Many(["critical", "unknown"]));
    ListedAlertIsLost(t, andFirst, Leaf(Host, Eq, One("web-01")), Leaf(State, In, Many(["critical", "unknown"])),
                      compiles, Row(map[Host := "web-01"], 2, 0, {}, {}, map[], map[]), 0);
  }

  lemma CriticalListing(v: Value)
    requires v == Many(["critical", "unknown"])
    ensures IsListing(Leaf(Host, Eq, One("web-01")), Leaf(State, In, v)) && SvcStateInt(Lower(v.items[0])) == Some(2)
  {
    NameOfCritical(v.items[0]);
    NameOfUnknown(v.items[1]);
  }

  lemma NameOfCritical(s: string)
    requires s == "critical"
    ensures Classify(s) == ServiceOnly && SvcStateInt(Lower(s)) == Some(2)
  {
    LowerStays(s);
    CriticalIsNoHostState(s);
    assert HostStateInt(s).None? && SvcStateInt(s) == Some(2);
  }

  lemma CriticalIsNoHostState(s: string)
    requires s == "critical"
    ensures |s| == 8 && s !in {"up", "down", "unreachable"}
    ensures s !in {"ok", "warning"}
  {
    assert s[0] == 'c';
  }

  lemma NameOfUnknown(s: string)
    requires s == "unknown"
    ensures Classify(s) == ServiceOnly
  {
    LowerStays(s);
    assert |s| == 7 && s[1] == 'n' && s !in {"up", "down", "unreachable"};
  }

  lemma {:induction false} LowerStays(s: string)
    requires forall i :: 0 <= i < |s| ==> 'a' <= s[i] <= 'z'
    ensures Lower(s) == s
  {
    if s == [] {
    } else {
      LowerStays(s[1..]);
    }
  }
}
