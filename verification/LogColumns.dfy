/** What goes to the log tables (helpers.py): they have no column of groups and none of custom variables, so no
    query sent to them asks for one. */
module LogColumns {
  import opened Basics
  import opened FilterTree
  import opened ThrukQuery
  import opened FilterCompiler
  import opened ParamDictionary
  import opened FilterMeaning
  import opened LogFilter
  import Q = QExpression

  /** A column log rows have. */
  predicate IsLogColumn(c: Column) {
    c.TextCol? || c.StateCol? || c.TimeCol?
  }

  predicate AtomOnLogs(a: QAtom) {
    IsLogColumn(a.column)
  }

  /** Every parameter and every atom of the text is on such a column. */
  ghost predicate QueryOnLogs(query: Query) {
    && (forall k :: k in query.params ==> IsLogColumn(k.column))
    && (query.q.Some? ==> forall x :: x in query.q.value && x.Atom? ==> AtomOnLogs(x.a))
  }

  // ---- Trees that name log columns only ----------------------------------------------------------------------

  predicate IsLogField(f: Field) {
    f !in {Hostgroup, Servicegroup, CustomVar, HostCustomVar}
  }

  ghost predicate OnLogs(n: Node) {
    match n
    case Leaf(f, _, v) => IsLogField(f) && !v.Variable?
    case Group(_, conds) => forall c :: c in conds ==> OnLogs(c)
  }

  lemma {:induction false} ExpandOnLogs(n: Node)
    requires OnLogs(n)
    ensures OnLogs(Expand(n))
    decreases n, 1
  {
    match n
    case Leaf(f, op, v) =>
      if IsRewritten(f) && op == In && v.Many? {
        forall c | c in EqLeaves(f, v.items) ensures OnLogs(c) {}
      }
    case Group(_, conds) => ExpandAllOnLogs(conds);
  }

  lemma {:induction false} ExpandAllOnLogs(conds: seq<Node>)
    requires forall c :: c in conds ==> OnLogs(c)
    ensures forall c :: c in ExpandAll(conds) ==> OnLogs(c)
    decreases conds, 0
  {
    if conds == [] {
    } else {
      ExpandOnLogs(conds[0]);
      ExpandAllOnLogs(conds[1..]);
    }
  }

  lemma {:induction false} LeavesOnLogs(n: Node)
    requires OnLogs(n)
    ensures forall l :: l in Leaves(n) ==> l.Leaf? && OnLogs(l)
    decreases n, 1
  {
    if n.Leaf? {
    } else {
      LeavesOfOnLogs(n.conds);
    }
  }

  lemma {:induction false} LeavesOfOnLogs(conds: seq<Node>)
    requires forall c :: c in conds ==> OnLogs(c)
    ensures forall l :: l in LeavesOf(conds) ==> l.Leaf? && OnLogs(l)
    decreases conds, 0
  {
    if conds == [] {
    } else {
      LeavesOnLogs(conds[0]);
      LeavesOfOnLogs(conds[1..]);
    }
  }

  lemma RoutesOnLogs(e: Node)
    requires OnLogs(e)
    ensures forall l :: l in BracketLeaves(e) ==> l.Leaf? && OnLogs(l)
    ensures TextTree(e).Some? ==> OnLogs(TextTree(e).value)
  {
    LeavesOnLogs(e);
    if e.Group? {
      PartsOfList(e.conds);
      LeavesOfOnLogs(OrFree(e.conds));
    }
  }

  // ---- Texts that name log columns only -----------------------------------------------------------------------

  /** All atoms of a printed tree are on log columns. */
  ghost predicate AtomsOnLogs(q: Q.QNode<QAtom>) {
    match q
    case QLeaf(a) => AtomOnLogs(a)
    case QIn(atoms) => forall a :: a in atoms ==> AtomOnLogs(a)
    case QGroup(_, conds) => forall c :: c in conds ==> AtomsOnLogs(c)
  }

  lemma {:induction false} TreeAtomsOnLogs(ctx: Context, n: Node)
    requires OnLogs(n)
    ensures AtomsOnLogs(ToQ(ctx, n))
    decreases n, 1
  {
    match n
    case Leaf(f, op, v) =>
      if op == In && v.Many? && f !in {Since, Until} {
        forall a | a in AtomsFor(ctx, f, v.items) ensures AtomOnLogs(a) {}
      }
    case Group(_, conds) => TreesAtomsOnLogs(ctx, conds);
  }

  lemma {:induction false} TreesAtomsOnLogs(ctx: Context, conds: seq<Node>)
    requires forall c :: c in conds ==> OnLogs(c)
    ensures forall q :: q in ToQs(ctx, conds) ==> AtomsOnLogs(q)
    decreases conds, 0
  {
    if conds == [] {
    } else {
      TreeAtomsOnLogs(ctx, conds[0]);
      TreesAtomsOnLogs(ctx, conds[1..]);
    }
  }

  ghost predicate TextOnLogs(text: Text) {
    forall x :: x in text && x.Atom? ==> AtomOnLogs(x.a)
  }

  lemma {:induction false} JoinedOnLogs(isOr: bool, parts: seq<Text>)
    requires forall p :: p in parts ==> TextOnLogs(p)
    ensures TextOnLogs(Q.Tail(isOr, parts)) && TextOnLogs(Q.Joined(isOr, parts))
  {
    if parts == [] {
    } else {
      JoinedOnLogs(isOr, parts[1..]);
      assert parts[0] in parts;
      forall x | x in Q.Tail(isOr, parts) && x.Atom? ensures AtomOnLogs(x.a) {
        assert x in parts[0] || x in Q.Tail(isOr, parts[1..]);
      }
    }
  }

  lemma {:induction false} AtomPartsOnLogs(atoms: seq<QAtom>)
    requires forall a :: a in atoms ==> AtomOnLogs(a)
    ensures forall p :: p in Q.AtomParts(atoms) ==> TextOnLogs(p)
  {
    if atoms == [] {
    } else {
      AtomPartsOnLogs(atoms[1..]);
    }
  }

  lemma {:induction false} PrintedOnLogs(q: Q.QNode<QAtom>, root: bool)
    requires AtomsOnLogs(q)
    ensures TextOnLogs(Q.Print(q, root))
    decreases q, 1
  {
    match q
    case QLeaf(_) =>
    case QIn(atoms) =>
      AtomPartsOnLogs(atoms);
      JoinedOnLogs(true, Q.AtomParts(atoms));
    case QGroup(isOr, conds) =>
      PrintedEachOnLogs(conds);
      JoinedOnLogs(isOr, Q.PrintEach(conds));
  }

  lemma {:induction false} PrintedEachOnLogs(conds: seq<Q.QNode<QAtom>>)
    requires forall c :: c in conds ==> AtomsOnLogs(c)
    ensures forall p :: p in Q.PrintEach(conds) ==> TextOnLogs(p)
    decreases conds, 0
  {
    if conds == [] {
    } else {
      PrintedOnLogs(conds[0], false);
      PrintedEachOnLogs(conds[1..]);
    }
  }

  // ---- Queries ---------------------------------------------------------------------------------------------------

  lemma ParamOnLogs(l: Node)
    requires l.Leaf? && OnLogs(l) && ParamOf(Logs, l).Ok?
    ensures IsLogColumn(ParamOf(Logs, l).value.0.column)
  {
  }

  lemma CompiledOnLogs(n: Node)
    requires OnLogs(n) && Compile(Logs, n).Ok?
    ensures QueryOnLogs(Compile(Logs, n).value)
  {
    var e := Expand(n);
    ExpandOnLogs(n);
    RoutesOnLogs(e);
    CompileSplits(Logs, n);
    var params := AddLeaves(Logs, map[], BracketLeaves(e)).value;
    forall k | k in params ensures IsLogColumn(k.column) {
      var l := EntryComesFromLeaf(Logs, BracketLeaves(e), k);
      ParamOnLogs(l);
    }
    if TextTree(e).Some? {
      TreeAtomsOnLogs(Logs, TextTree(e).value);
      PrintedOnLogs(ToQ(Logs, TextTree(e).value), true);
    }
  }

  // ---- The direct part ----------------------------------------------------------------------------------------

  /** What the log tools allow: log columns, host groups and custom variables of hosts. */
  ghost predicate AllowedOnLogs(n: Node) {
    match n
    case Leaf(f, _, v) => f in {Hostgroup, CustomVar} || (IsLogField(f) && !v.Variable?)
    case Group(_, conds) => forall c :: c in conds ==> AllowedOnLogs(c)
  }

  lemma {:induction false} ValidIsAllowed(n: Node, allowed: set<Field>, compiles: string -> bool, depth: nat)
    requires Valid(n, allowed, compiles, depth) && Servicegroup !in allowed && HostCustomVar !in allowed
    ensures AllowedOnLogs(n)
    decreases n
  {
    if n.Leaf? {
    } else {
      forall c | c in n.conds ensures AllowedOnLogs(c) {
        ValidIsAllowed(c, allowed, compiles, depth + 1);
      }
    }
  }

  lemma {:induction false} DirectStaysAllowed(n: Node)
    requires AllowedOnLogs(n)
    ensures forall d :: d in Direct(n) ==> AllowedOnLogs(d)
    decreases n, 1
  {
    if n.Group? && !n.isOr {
      DirectAllStaysAllowed(n.conds);
    }
  }

  lemma {:induction false} DirectAllStaysAllowed(conds: seq<Node>)
    requires forall c :: c in conds ==> AllowedOnLogs(c)
    ensures forall d :: d in DirectAll(conds) ==> AllowedOnLogs(d)
    decreases conds, 0
  {
    if conds == [] {
    } else {
      DirectStaysAllowed(conds[0]);
      DirectAllStaysAllowed(conds[1..]);
    }
  }

  lemma {:induction false} ToldByLogs(n: Node)
    requires AllowedOnLogs(n) && LogsCanTell(n)
    ensures OnLogs(n)
  {
    if n.Leaf? {
    } else {
      forall c | c in n.conds ensures OnLogs(c) {
        ToldByLogs(c);
      }
    }
  }

  lemma DirectIsOnLogs(n: Node)
    requires AllowedOnLogs(n) && !Rejected(n) && Direct(n) != []
    ensures OnLogs(Conjoin(Direct(n)))
  {
    DirectStaysAllowed(n);
    PartsAreSeparate(n);
    forall d | d in Direct(n) ensures OnLogs(d) {
      ToldByLogs(d);
    }
  }

  /** Whatever is resolved asks the log tables for columns they have: no parameter and no atom of the text is on a
      group or on a custom variable. For every tool whose fields are log fields, host groups and custom variables. */
  lemma ResolvedOnLogs(n: Node, allowed: set<Field>, compiles: string -> bool, server: Query -> seq<Row>)
    requires Valid(n, allowed, compiles, 0) && Servicegroup !in allowed && HostCustomVar !in allowed
    requires Extract(n).Ok? && ResolveParts(Extract(n).value.0, Extract(n).value.1, server).Resolved?
    ensures var query := ResolveParts(Extract(n).value.0, Extract(n).value.1, server).query;
      && (forall k :: k in query.params ==>
            k.column != GroupsCol && k.column != HostGroupsCol && !k.column.VarCol?)
      && (query.q.Some? ==> forall x :: x in query.q.value && x.Atom? ==>
            x.a.column != GroupsCol && x.a.column != HostGroupsCol && !x.a.column.VarCol?)
  {
    ValidIsAllowed(n, allowed, compiles, 0);
    var direct := CompilePart(Logs, Wrap(Direct(n))).value;
    if Direct(n) != [] {
      DirectIsOnLogs(n);
      CompiledOnLogs(Conjoin(Direct(n)));
    }
    var query := ResolveParts(Extract(n).value.0, Extract(n).value.1, server).query;
    assert QueryOnLogs(direct);
    assert forall k :: k in query.params ==> k in direct.params || k == HOST_NAME_REGEX;
    assert query.q == direct.q;
  }

  /** `thruk_alerts`: its filters never reach the logs with a group or a variable, and one with a host group or a
      custom variable below an OR that is reached through AND groups is refused. */
  lemma AlertsOnLogs(n: Node, compiles: string -> bool, server: Query -> seq<Row>)
    requires Valid(n, {Host, Service, State, Hostgroup, CustomVar, Since, Until}, compiles, 0)
    ensures Extract(n).FilterError? <==> exists m :: OnAndPath(n, m) && OrOverLookup(m)
    ensures Extract(n).Ok? ==>
      match ResolveParts(Extract(n).value.0, Extract(n).value.1, server)
      case Resolved(query, _) => QueryOnLogs(query)
      case other => true
  {
    RejectedExactly(n);
    if Extract(n).Ok? && ResolveParts(Extract(n).value.0, Extract(n).value.1, server).Resolved? {
      ResolvedOnLogs(n, {Host, Service, State, Hostgroup, CustomVar, Since, Until}, compiles, server);
    }
  }
}
