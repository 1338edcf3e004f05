/** Filters over the log tables (filters.py, helpers.py).

    Log rows carry no host group and no custom variable. A filter is split in two: the direct part is
    compiled for the logs, the lookup part for the hosts, and the hosts it finds become one more
    condition on the host name of the log rows. */
module LogFilter {
  import opened Basics
  import opened FilterTree
  import opened ThrukQuery
  import opened FilterCompiler
  import opened LeafMeaning
  import opened ParamDictionary
  import opened FilterMeaning
  import Pagination

  // ---- Splitting -------------------------------------------------------------------------------------

  predicate IsLookup(f: Field) {
    f in {Hostgroup, CustomVar}
  }

  /** `_has_lookup`. */
  predicate HasLookup(n: Node) {
    match n
    case Leaf(f, _, _) => IsLookup(f)
    case Group(_, conds) => exists c :: c in conds && HasLookup(c)
  }

  function Direct(n: Node): seq<Node>
    decreases n, 1
  {
    match n
    case Leaf(f, _, _) => if IsLookup(f) then [] else [n]
    case Group(true, _) => [n]
    case Group(false, conds) => DirectAll(conds)
  }

  function DirectAll(conds: seq<Node>): seq<Node>
    decreases conds, 0
  {
    if conds == [] then [] else Direct(conds[0]) + DirectAll(conds[1..])
  }

  function LookupLeaves(n: Node): seq<Node>
    decreases n, 1
  {
    match n
    case Leaf(f, _, _) => if IsLookup(f) then [n] else []
    case Group(true, _) => []
    case Group(false, conds) => LookupAll(conds)
  }

  function LookupAll(conds: seq<Node>): seq<Node>
    decreases conds, 0
  {
    if conds == [] then [] else LookupLeaves(conds[0]) + LookupAll(conds[1..])
  }

  /** `_walk` raises. */
  predicate Rejected(n: Node) {
    match n
    case Leaf(_, _, _) => false
    case Group(true, _) => HasLookup(n)
    case Group(false, conds) => exists c :: c in conds && Rejected(c)
  }

  function Wrap(nodes: seq<Node>): Option<Node> {
    if nodes == [] then None else Some(Conjoin(nodes))
  }

  function Extract(n: Node): Outcome<(Option<Node>, Option<Node>)> {
    if Rejected(n) then FilterError else Ok((Wrap(Direct(n)), Wrap(LookupLeaves(n))))
  }

  /** `_walk`, the two lists growing as the tree is walked. */
  method Walk(direct: seq<Node>, lookup: seq<Node>, n: Node) returns (r: Outcome<(seq<Node>, seq<Node>)>)
    ensures r.FilterError? <==> Rejected(n)
    ensures r.Ok? ==> r.value == (direct + Direct(n), lookup + LookupLeaves(n))
    decreases n
  {
    match n
    case Leaf(f, _, _) =>
      r := Ok(if IsLookup(f) then (direct + [], lookup + [n]) else (direct + [n], lookup + []));
    case Group(true, _) =>
      r := if HasLookup(n) then FilterError else Ok((direct + [n], lookup + []));
    case Group(false, conds) =>
      var d, l := direct, lookup;
      for i := 0 to |conds|
        invariant d + DirectAll(conds[i..]) == direct + DirectAll(conds)
        invariant l + LookupAll(conds[i..]) == lookup + LookupAll(conds)
        invariant forall j :: 0 <= j < i ==> !Rejected(conds[j])
      {
        var child := Walk(d, l, conds[i]);
        if child.FilterError? {
          return FilterError;
        }
        assert conds[i..][1..] == conds[i + 1..];
        d, l := child.value.0, child.value.1;
      }
      assert conds[|conds|..] == [] && d + [] == d && l + [] == l;
      r := Ok((d, l));
  }

  /** `extract_log_lookup_fields`. */
  method ExtractLogLookupFields(n: Node) returns (r: Outcome<(Option<Node>, Option<Node>)>)
    ensures r == Extract(n)
  {
    var parts := Walk([], [], n);
    if parts.FilterError? {
      return FilterError;
    }
    assert [] + Direct(n) == Direct(n) && [] + LookupLeaves(n) == LookupLeaves(n);
    r := Ok((Wrap(parts.value.0), Wrap(parts.value.1)));
  }

  /** `m` is reached from the root through AND groups only. */
  ghost predicate OnAndPath(n: Node, m: Node) {
    n == m || (n.Group? && !n.isOr && exists c :: c in n.conds && OnAndPath(c, m))
  }

  /** An OR with a host group or a custom variable somewhere below it. */
  ghost predicate OrOverLookup(m: Node) {
    m.Group? && m.isOr && exists l :: l in Leaves(m) && l.Leaf? && l.field in {Hostgroup, CustomVar}
  }

  lemma {:induction false} HasLookupExactly(n: Node)
    ensures HasLookup(n) <==> exists l :: l in Leaves(n) && l.Leaf? && l.field in {Hostgroup, CustomVar}
    decreases n
  {
    if n.Leaf? {
      assert n in Leaves(n);
    } else {
      forall c | c in n.conds
        ensures HasLookup(c) <==> exists l :: l in Leaves(c) && l.Leaf? && l.field in {Hostgroup, CustomVar}
      {
        HasLookupExactly(c);
      }
      forall l ensures l in Leaves(n) <==> exists c :: c in n.conds && l in Leaves(c) {
        LeavesOfMember(n.conds, l);
      }
    }
  }

  /** Splitting raises exactly when an OR over a host group or a custom variable is reached through AND groups only. */
  lemma {:induction false} RejectedExactly(n: Node)
    ensures Extract(n).FilterError? <==> exists m :: OnAndPath(n, m) && OrOverLookup(m)
  {
    match n
    case Leaf(_, _, _) =>
    case Group(true, _) =>
      HasLookupExactly(n);
      assert OnAndPath(n, n);
    case Group(false, conds) =>
      forall c | c in conds ensures Rejected(c) <==> exists m :: OnAndPath(c, m) && OrOverLookup(m) {
        RejectedExactly(c);
      }
      if c :| c in conds && Rejected(c) {
        var m :| OnAndPath(c, m) && OrOverLookup(m);
        assert OnAndPath(n, m);
      }
  }

  // ---- Splitting loses nothing -------------------------------------------------------------------------

  lemma AllHoldAppend(t: Thruk, ctx: Context, a: seq<Node>, b: seq<Node>, row: Row)
    ensures AllHold(t, ctx, a + b, row) <==> AllHold(t, ctx, a, row) && AllHold(t, ctx, b, row)
  {
    forall l ensures l in a + b <==> l in a || l in b {}
  }

  lemma {:induction false} PartsHold(t: Thruk, ctx: Context, n: Node, row: Row)
    requires !Rejected(n)
    ensures Holds(t, ctx, n, row) <==> AllHold(t, ctx, Direct(n), row) && AllHold(t, ctx, LookupLeaves(n), row)
    decreases n, 1
  {
    if n.Group? && !n.isOr {
      PartsHoldAll(t, ctx, n.conds, row);
      assert Holds(t, ctx, n, row) <==> AllHold(t, ctx, n.conds, row);
    }
  }

  lemma {:induction false} PartsHoldAll(t: Thruk, ctx: Context, conds: seq<Node>, row: Row)
    requires forall c :: c in conds ==> !Rejected(c)
    ensures AllHold(t, ctx, conds, row) <==>
      AllHold(t, ctx, DirectAll(conds), row) && AllHold(t, ctx, LookupAll(conds), row)
    decreases conds, 0
  {
    if conds == [] {
    } else {
      PartsHold(t, ctx, conds[0], row);
      PartsHoldAll(t, ctx, conds[1..], row);
      AllHoldAppend(t, ctx, Direct(conds[0]), DirectAll(conds[1..]), row);
      AllHoldAppend(t, ctx, LookupLeaves(conds[0]), LookupAll(conds[1..]), row);
      AllHoldAppend(t, ctx, [conds[0]], conds[1..], row);
      assert conds == [conds[0]] + conds[1..];
      assert AllHold(t, ctx, [conds[0]], row) <==> Holds(t, ctx, conds[0], row);
    }
  }

  ghost predicate PartHolds(t: Thruk, ctx: Context, part: Option<Node>, row: Row) {
    part.Some? ==> Holds(t, ctx, part.value, row)
  }

  /** A tree is its direct part and its lookup part. */
  lemma SplitKeepsMeaning(t: Thruk, ctx: Context, n: Node, row: Row)
    requires Extract(n).Ok?
    ensures var (direct, lookup) := Extract(n).value;
      Holds(t, ctx, n, row) <==> PartHolds(t, ctx, direct, row) && PartHolds(t, ctx, lookup, row)
  {
    PartsHold(t, ctx, n, row);
    if Direct(n) != [] {
      ConjoinHolds(t, ctx, Direct(n), row);
    }
    if LookupLeaves(n) != [] {
      ConjoinHolds(t, ctx, LookupLeaves(n), row);
    }
  }

  /** No host group and no custom variable anywhere in the tree. */
  ghost predicate LogsCanTell(n: Node) {
    match n
    case Leaf(f, _, _) => f !in {Hostgroup, CustomVar}
    case Group(_, conds) => forall c :: c in conds ==> LogsCanTell(c)
  }

  lemma {:induction false} WithoutLookup(n: Node)
    requires !HasLookup(n)
    ensures LogsCanTell(n)
  {
    if n.Leaf? {
    } else {
      forall c | c in n.conds ensures LogsCanTell(c) {
        WithoutLookup(c);
      }
    }
  }

  /** The direct part is free of host groups and custom variables; the lookup part holds such leaves only. */
  lemma {:induction false} PartsAreSeparate(n: Node)
    requires !Rejected(n)
    ensures forall d :: d in Direct(n) ==> LogsCanTell(d)
    ensures forall l :: l in LookupLeaves(n) ==> l.Leaf? && l.field in {Hostgroup, CustomVar}
    decreases n, 1
  {
    if n.Leaf? {
    } else if n.isOr {
      WithoutLookup(n);
    } else {
      PartsAreSeparateAll(n.conds);
    }
  }

  lemma {:induction false} PartsAreSeparateAll(conds: seq<Node>)
    requires forall c :: c in conds ==> !Rejected(c)
    ensures forall d :: d in DirectAll(conds) ==> LogsCanTell(d)
    ensures forall l :: l in LookupAll(conds) ==> l.Leaf? && l.field in {Hostgroup, CustomVar}
    decreases conds, 0
  {
    if conds == [] {
    } else {
      PartsAreSeparate(conds[0]);
      PartsAreSeparateAll(conds[1..]);
    }
  }

  /** Every part of a well-formed tree is well-formed. */
  lemma {:induction false} PartsStayWellFormed(n: Node)
    requires WellFormed(n)
    ensures forall d :: d in Direct(n) ==> WellFormed(d)
    ensures forall l :: l in LookupLeaves(n) ==> WellFormed(l)
    decreases n, 1
  {
    if n.Group? && !n.isOr {
      PartsStayWellFormedAll(n.conds);
    }
  }

  lemma {:induction false} PartsStayWellFormedAll(conds: seq<Node>)
    requires forall c :: c in conds ==> WellFormed(c)
    ensures forall d :: d in DirectAll(conds) ==> WellFormed(d)
    ensures forall l :: l in LookupAll(conds) ==> WellFormed(l)
    decreases conds, 0
  {
    if conds == [] {
    } else {
      PartsStayWellFormed(conds[0]);
      PartsStayWellFormedAll(conds[1..]);
    }
  }

  // ---- Resolving the hosts -------------------------------------------------------------------------------

  const RESOLVE_HOSTS_HARD_LIMIT := 20000
  const PAGE_SIZE := 500

  const HOST_NAME_REGEX := Key(TextCol(Host), RegexOp)

  function NameOf(host: Row): string {
    TextOf(host, Name)
  }

  /** The names of the rows that have one. */
  function NamesOf(hosts: seq<Row>): seq<string> {
    if hosts == [] then []
    else (if NameOf(hosts[0]) == "" then [] else [NameOf(hosts[0])]) + NamesOf(hosts[1..])
  }

  lemma {:induction false} NamesOfAppend(hosts: seq<Row>, host: Row)
    ensures NamesOf(hosts + [host]) == NamesOf(hosts) + if NameOf(host) == "" then [] else [NameOf(host)]
  {
    if hosts == [] {
      assert hosts + [host] == [host] && [host][1..] == [];
    } else {
      assert (hosts + [host])[1..] == hosts[1..] + [host];
      NamesOfAppend(hosts[1..], host);
    }
  }

  lemma {:induction false} NamesOfMembers(hosts: seq<Row>, name: string)
    ensures name in NamesOf(hosts) <==> name != "" && exists h :: h in hosts && NameOf(h) == name
    ensures |NamesOf(hosts)| <= |hosts|
    ensures (forall h :: h in hosts ==> NameOf(h) != "") ==> |NamesOf(hosts)| == |hosts|
  {
    if hosts == [] {
    } else {
      NamesOfMembers(hosts[1..], name);
      assert hosts == [hosts[0]] + hosts[1..];
      if h :| h in hosts && NameOf(h) == name && name != "" {
        assert h == hosts[0] || h in hosts[1..];
      }
    }
  }

  /** `_resolve_hosts_to_regex_from_params`, given the hosts that match on the server: their names, and
      whether the cap was reached. */
  method ResolveHosts(matching: seq<Row>, hardLimit: nat) returns (names: seq<string>, truncated: bool)
    ensures names == NamesOf(Pagination.Slice(matching, 0, hardLimit))
    ensures truncated == (names != [] && |names| >= hardLimit)
  {
    var rows := Pagination.GetAll(matching, 0, PAGE_SIZE, hardLimit);
    names := [];
    for i := 0 to |rows|
      invariant names == NamesOf(rows[..i])
    {
      assert rows[..i + 1] == rows[..i] + [rows[i]];
      NamesOfAppend(rows[..i], rows[i]);
      if NameOf(rows[i]) != "" {
        names := names + [NameOf(rows[i])];
      }
    }
    assert rows[..|rows|] == rows;
    truncated := names != [] && |names| >= hardLimit;
  }

  /** The outcomes of `_resolve_log_filter`; `Raised` is the compiler's own error, which it does not catch. */
  datatype LogOutcome = Resolved(query: Query, truncated: bool) | Refused | NoHosts | Raised

  const NOTHING := Query(map[], None)

  /** `extra["host_name[regex]"] = …`. */
  function WithHosts(direct: Query, names: seq<string>): Query {
    direct.(params := direct.params[HOST_NAME_REGEX := Exactly(names)])
  }

  function CompilePart(ctx: Context, part: Option<Node>): Outcome<Query> {
    if part.None? then Ok(NOTHING) else Compile(ctx, part.value)
  }

  function ResolveParts(direct: Option<Node>, lookup: Option<Node>, server: Query -> seq<Row>): LogOutcome {
    match (CompilePart(Logs, direct), CompilePart(Hosts, lookup))
    case (FilterError, _) => Raised
    case (Ok(d), FilterError) => Raised
    case (Ok(d), Ok(l)) =>
      if lookup.None? then Resolved(d, false)
      else
        var names := NamesOf(Pagination.Slice(server(l), 0, RESOLVE_HOSTS_HARD_LIMIT));
        if names == [] then NoHosts
        else Resolved(WithHosts(d, names), |names| >= RESOLVE_HOSTS_HARD_LIMIT)
  }

  /** `_resolve_log_filter`: `server` answers a query over the hosts. */
  method ResolveLogFilter(filter: Option<Node>, allowed: set<Field>, compiles: string -> bool,
                          server: Query -> seq<Row>)
    returns (r: LogOutcome)
    ensures filter.None? ==> r == Resolved(NOTHING, false)
    ensures filter.Some? ==>
      r == if !Valid(filter.value, allowed, compiles, 0) then Refused
           else match Extract(filter.value)
                case FilterError => Refused
                case Ok((direct, lookup)) => ResolveParts(direct, lookup, server)
  {
    if filter.None? {
      return Resolved(NOTHING, false);
    }
    if !Valid(filter.value, allowed, compiles, 0) {
      return Refused;
    }
    var parts := ExtractLogLookupFields(filter.value);
    if parts.FilterError? {
      return Refused;
    }
    var (direct, lookup) := parts.value;
    var extra := NOTHING;
    if direct.Some? {
      var compiled := CompileFilter(Logs, direct.value);
      if compiled.FilterError? {
        return Raised;
      }
      extra := compiled.value;
    }
    if lookup.Some? {
      var compiled := CompileFilter(Hosts, lookup.value);
      if compiled.FilterError? {
        return Raised;
      }
      var names, truncated := ResolveHosts(server(compiled.value), RESOLVE_HOSTS_HARD_LIMIT);
      if names == [] {
        return NoHosts;
      }
      return Resolved(WithHosts(extra, names), truncated);
    }
    return Resolved(extra, false);
  }

  // ---- The resolved query against the filter ---------------------------------------------------------------

  /** The hosts a query selects, in order. */
  ghost function Matching(t: Thruk, andFirst: bool, query: Query, hosts: seq<Row>): seq<Row> {
    if hosts == [] then []
    else
      (if Selects(t, Hosts, andFirst, query, hosts[0]) then [hosts[0]] else [])
      + Matching(t, andFirst, query, hosts[1..])
  }

  lemma {:induction false} MatchingMembers(t: Thruk, andFirst: bool, query: Query, hosts: seq<Row>, h: Row)
    ensures h in Matching(t, andFirst, query, hosts) <==> h in hosts && Selects(t, Hosts, andFirst, query, h)
  {
    if hosts == [] {
    } else {
      MatchingMembers(t, andFirst, query, hosts[1..], h);
      assert hosts == [hosts[0]] + hosts[1..];
    }
  }

  ghost predicate AllNamed(hosts: seq<Row>) {
    forall h :: h in hosts ==> NameOf(h) != ""
  }

  /** A host with the row's host name is selected. */
  ghost predicate HostFound(t: Thruk, andFirst: bool, query: Query, hosts: seq<Row>, row: Row) {
    exists h :: h in hosts && NameOf(h) == TextOf(row, Host) && Selects(t, Hosts, andFirst, query, h)
  }

  /** The inventory: every host has a name, the row's host is listed, and the row stands for its groups and
      variables. */
  ghost predicate Listed(hosts: seq<Row>, row: Row) {
    && AllNamed(hosts)
    && (exists h :: h in hosts && NameOf(h) == TextOf(row, Host))
    && (forall h :: h in hosts && NameOf(h) == TextOf(row, Host) ==> h.groups == row.groups && h.vars == row.vars)
  }

  /** A part whose compiled query selects exactly its rows. */
  ghost predicate ExactPart(ctx: Context, part: Option<Node>) {
    part.Some? ==>
      var e := Expand(part.value);
      && WellFormed(part.value) && Compile(ctx, part.value).Ok? && FaithfulTextTree(ctx, e)
      && NoClash(ctx, BracketLeaves(e)) && forall l :: l in BracketLeaves(e) ==> FaithfulBracketNode(ctx, l)
  }

  lemma ExactPartSelects(t: Thruk, ctx: Context, andFirst: bool, part: Option<Node>, row: Row)
    requires ExactPart(ctx, part)
    ensures CompilePart(ctx, part).Ok?
    ensures Selects(t, ctx, andFirst, CompilePart(ctx, part).value, row) <==> PartHolds(t, ctx, part, row)
  {
    if part.Some? {
      CompileKeepsMeaning(t, ctx, andFirst, part.value, row);
    }
  }

  /** A lookup leaf means on a log row what it means on its host. */
  lemma LookupMeansHost(t: Thruk, leaves: seq<Node>, row: Row, host: Row)
    requires host.groups == row.groups && host.vars == row.vars
    requires forall l :: l in leaves ==> l.Leaf? && IsLookup(l.field) && WellFormed(l)
    ensures PartHolds(t, Logs, Wrap(leaves), row) <==> PartHolds(t, Hosts, Wrap(leaves), host)
  {
    forall l | l in leaves ensures Holds(t, Logs, l, row) <==> Holds(t, Hosts, l, host) {
      LookupLeafMeansHost(t, l, row, host);
    }
    if leaves != [] {
      ConjoinHolds(t, Logs, leaves, row);
      ConjoinHolds(t, Hosts, leaves, host);
    }
  }

  lemma LookupLeafMeansHost(t: Thruk, l: Node, row: Row, host: Row)
    requires host.groups == row.groups && host.vars == row.vars && l.Leaf? && IsLookup(l.field) && WellFormed(l)
    ensures Holds(t, Logs, l, row) <==> Holds(t, Hosts, l, host)
  {
    if l.op == In {
      forall i | 0 <= i < |l.value.items|
        ensures var s := l.value.items[i];
          OneHolds(t, Logs, l.field, Eq, s, row) <==> OneHolds(t, Hosts, l.field, Eq, s, host)
      {
      }
    }
  }

  lemma FoundAreNamed(t: Thruk, andFirst: bool, query: Query, hosts: seq<Row>)
    requires AllNamed(hosts)
    ensures AllNamed(Matching(t, andFirst, query, hosts))
  {
    forall h | h in Matching(t, andFirst, query, hosts) ensures NameOf(h) != "" {
      MatchingMembers(t, andFirst, query, hosts, h);
    }
  }

  /** Of the names looked up, the row's host is one exactly when such a host is selected; if the list was cut,
      only if. */
  lemma FoundExactly(t: Thruk, andFirst: bool, query: Query, hosts: seq<Row>, row: Row, limit: nat)
    requires AllNamed(hosts)
    ensures var names := NamesOf(Pagination.Slice(Matching(t, andFirst, query, hosts), 0, limit));
      && (TextOf(row, Host) in names ==> HostFound(t, andFirst, query, hosts, row))
      && (|names| < limit ==> HostFound(t, andFirst, query, hosts, row) ==> TextOf(row, Host) in names)
  {
    var found := Matching(t, andFirst, query, hosts);
    var kept := Pagination.Slice(found, 0, limit);
    FoundAreNamed(t, andFirst, query, hosts);
    NamesOfMembers(kept, TextOf(row, Host));
    SliceIsAll(found, limit);
    if TextOf(row, Host) in NamesOf(kept) {
      var h :| h in kept && NameOf(h) == TextOf(row, Host);
      MatchingMembers(t, andFirst, query, hosts, h);
    }
    if |NamesOf(kept)| < limit && HostFound(t, andFirst, query, hosts, row) {
      var h :| h in hosts && NameOf(h) == TextOf(row, Host) && Selects(t, Hosts, andFirst, query, h);
      MatchingMembers(t, andFirst, query, hosts, h);
    }
  }

  /** A slice is a part of the list, and all of it where it is shorter than it might be. */
  lemma SliceIsAll(found: seq<Row>, limit: nat)
    ensures var kept := Pagination.Slice(found, 0, limit);
      (|kept| < limit ==> kept == found) && forall h :: h in kept ==> h in found
  {
  }

  /** A lookup part compiled exactly: the row's host is selected exactly when the row meets the part. */
  lemma HostFoundExactly(t: Thruk, andFirst: bool, lookup: seq<Node>, hosts: seq<Row>, row: Row)
    requires ExactPart(Hosts, Wrap(lookup)) && Listed(hosts, row)
    requires forall l :: l in lookup ==> l.Leaf? && IsLookup(l.field) && WellFormed(l)
    ensures CompilePart(Hosts, Wrap(lookup)).Ok?
    ensures HostFound(t, andFirst, CompilePart(Hosts, Wrap(lookup)).value, hosts, row)
       <==> PartHolds(t, Logs, Wrap(lookup), row)
  {
    forall h | h in hosts && NameOf(h) == TextOf(row, Host)
      ensures CompilePart(Hosts, Wrap(lookup)).Ok?
      ensures Selects(t, Hosts, andFirst, CompilePart(Hosts, Wrap(lookup)).value, h)
         <==> PartHolds(t, Logs, Wrap(lookup), row)
    {
      ExactPartSelects(t, Hosts, andFirst, Wrap(lookup), h);
      LookupMeansHost(t, lookup, row, h);
    }
    ExactPartSelects(t, Hosts, andFirst, Wrap(lookup), row);
  }

  /** A part that loses no row compiled: clashing keys and `in` on a plain field allowed. */
  ghost predicate KeepingPart(ctx: Context, part: Option<Node>) {
    part.Some? ==>
      var e := Expand(part.value);
      && WellFormed(part.value) && Compile(ctx, part.value).Ok? && FaithfulTextTree(ctx, e)
      && forall l :: l in BracketLeaves(e) ==> KeepsRows(ctx, l)
  }

  lemma KeepingPartSelects(t: Thruk, ctx: Context, andFirst: bool, part: Option<Node>, row: Row)
    requires KeepingPart(ctx, part) && PartHolds(t, ctx, part, row)
    ensures CompilePart(ctx, part).Ok? && Selects(t, ctx, andFirst, CompilePart(ctx, part).value, row)
  {
    if part.Some? {
      NoRowLost(t, ctx, andFirst, part.value, row);
    }
  }

  /** Then a row that meets the lookup part has its host selected. */
  lemma HostFoundKeeps(t: Thruk, andFirst: bool, lookup: seq<Node>, hosts: seq<Row>, row: Row)
    requires KeepingPart(Hosts, Wrap(lookup)) && Listed(hosts, row) && PartHolds(t, Logs, Wrap(lookup), row)
    requires forall l :: l in lookup ==> l.Leaf? && IsLookup(l.field) && WellFormed(l)
    ensures CompilePart(Hosts, Wrap(lookup)).Ok?
    ensures HostFound(t, andFirst, CompilePart(Hosts, Wrap(lookup)).value, hosts, row)
  {
    var h :| h in hosts && NameOf(h) == TextOf(row, Host);
    LookupMeansHost(t, lookup, row, h);
    KeepingPartSelects(t, Hosts, andFirst, Wrap(lookup), h);
  }

  /** One more condition on the host name, in the place of the one there may have been. */
  lemma WithHostsSelects(t: Thruk, andFirst: bool, direct: Query, names: seq<string>, row: Row)
    ensures Selects(t, Logs, andFirst, WithHosts(direct, names), row) <==>
      TextOf(row, Host) in names && Selects(t, Logs, andFirst, WithoutPattern(direct), row)
  {
    var with := WithHosts(direct, names);
    var rest := WithoutPattern(direct);
    assert ParamHolds(t, Logs, HOST_NAME_REGEX, Exactly(names), row) <==> TextOf(row, Host) in names;
    if ParamsHold(t, Logs, with.params, row) {
      assert HOST_NAME_REGEX in with.params;
      forall k | k in rest.params ensures ParamHolds(t, Logs, k, rest.params[k], row) {
        assert k in with.params;
      }
    }
    if ParamsHold(t, Logs, rest.params, row) && TextOf(row, Host) in names {
      forall k | k in with.params ensures ParamHolds(t, Logs, k, with.params[k], row) {
        assert k != HOST_NAME_REGEX ==> k in rest.params;
      }
    }
  }

  /** What `_resolve_log_filter` works with: a tree split into a direct and a lookup part, both of which compile,
      and a server that answers queries over `hosts`. */
  ghost predicate Setting(t: Thruk, andFirst: bool, n: Node, hosts: seq<Row>, server: Query -> seq<Row>) {
    && WellFormed(n) && !Rejected(n) && LookupLeaves(n) != []
    && CompilePart(Logs, Wrap(Direct(n))).Ok? && CompilePart(Hosts, Wrap(LookupLeaves(n))).Ok?
    && (forall q :: server(q) == Matching(t, andFirst, q, hosts)) && AllNamed(hosts)
  }

  /** The row's host meets the query the lookup part is compiled to. */
  ghost predicate LookedUp(t: Thruk, andFirst: bool, n: Node, hosts: seq<Row>, row: Row)
    requires CompilePart(Hosts, Wrap(LookupLeaves(n))).Ok?
  {
    HostFound(t, andFirst, CompilePart(Hosts, Wrap(LookupLeaves(n))).value, hosts, row)
  }

  function Resolution(n: Node, server: Query -> seq<Row>): LogOutcome {
    ResolveParts(Wrap(Direct(n)), Wrap(LookupLeaves(n)), server)
  }

  /** The direct part's query without what it says on the host name as a pattern. */
  function WithoutPattern(direct: Query): Query {
    direct.(params := direct.params - {HOST_NAME_REGEX})
  }

  /** Exactly what the resolved query selects: the rows whose host meets the query for hosts (no others, if the
      list was cut) and that meet the direct part without what it said on the host name as a pattern. */
  lemma ResolvedSelects(t: Thruk, andFirst: bool, n: Node, hosts: seq<Row>, server: Query -> seq<Row>, row: Row)
    requires Setting(t, andFirst, n, hosts, server) && Resolution(n, server).Resolved?
    ensures var r := Resolution(n, server);
      var rest := Selects(t, Logs, andFirst, WithoutPattern(CompilePart(Logs, Wrap(Direct(n))).value), row);
      && (Selects(t, Logs, andFirst, r.query, row) ==> rest && LookedUp(t, andFirst, n, hosts, row))
      && (!r.truncated ==> rest && LookedUp(t, andFirst, n, hosts, row) ==> Selects(t, Logs, andFirst, r.query, row))
  {
    var lookup := CompilePart(Hosts, Wrap(LookupLeaves(n))).value;
    var direct := CompilePart(Logs, Wrap(Direct(n))).value;
    FoundExactly(t, andFirst, lookup, hosts, row, RESOLVE_HOSTS_HARD_LIMIT);
    var names := NamesOf(Pagination.Slice(server(lookup), 0, RESOLVE_HOSTS_HARD_LIMIT));
    WithHostsSelects(t, andFirst, direct, names, row);
  }

  /** If the direct part says nothing on the host name as a pattern and the list was not cut, the resolved
      query selects exactly the rows of the original filter; if it was cut, it still selects no other. */
  lemma ResolvingKeepsMeaning(t: Thruk, andFirst: bool, n: Node, hosts: seq<Row>, server: Query -> seq<Row>, row: Row)
    requires Setting(t, andFirst, n, hosts, server) && Listed(hosts, row) && Resolution(n, server).Resolved?
    requires ExactPart(Logs, Wrap(Direct(n))) && ExactPart(Hosts, Wrap(LookupLeaves(n)))
    requires HOST_NAME_REGEX !in CompilePart(Logs, Wrap(Direct(n))).value.params
    ensures var r := Resolution(n, server);
      && (Selects(t, Logs, andFirst, r.query, row) ==> Holds(t, Logs, n, row))
      && (!r.truncated ==> Holds(t, Logs, n, row) ==> Selects(t, Logs, andFirst, r.query, row))
  {
    var direct := CompilePart(Logs, Wrap(Direct(n))).value;
    assert direct.params - {HOST_NAME_REGEX} == direct.params;
    ResolvedSelects(t, andFirst, n, hosts, server, row);
    ExactPartSelects(t, Logs, andFirst, Wrap(Direct(n)), row);
    LookupPartIs(n);
    HostFoundExactly(t, andFirst, LookupLeaves(n), hosts, row);
    SplitKeepsMeaning(t, Logs, n, row);
  }

  lemma LookupPartIs(n: Node)
    requires WellFormed(n) && !Rejected(n)
    ensures forall l :: l in LookupLeaves(n) ==> l.Leaf? && IsLookup(l.field) && WellFormed(l)
  {
    PartsAreSeparate(n);
    PartsStayWellFormed(n);
  }

  /** No row of the filter is lost, whatever keys clash and whether the host pattern is replaced or not, unless
      the list was cut. */
  lemma ResolvingLosesNoRow(t: Thruk, andFirst: bool, n: Node, hosts: seq<Row>, server: Query -> seq<Row>, row: Row)
    requires Setting(t, andFirst, n, hosts, server) && Listed(hosts, row)
    requires KeepingPart(Logs, Wrap(Direct(n))) && KeepingPart(Hosts, Wrap(LookupLeaves(n)))
    requires Resolution(n, server).Resolved? && !Resolution(n, server).truncated && Holds(t, Logs, n, row)
    ensures Selects(t, Logs, andFirst, Resolution(n, server).query, row)
  {
    SplitKeepsMeaning(t, Logs, n, row);
    KeepingPartSelects(t, Logs, andFirst, Wrap(Direct(n)), row);
    FewerParamsSelectMore(t, andFirst, CompilePart(Logs, Wrap(Direct(n))).value, row);
    LookupPartIs(n);
    HostFoundKeeps(t, andFirst, LookupLeaves(n), hosts, row);
    ResolvedSelects(t, andFirst, n, hosts, server, row);
  }

  lemma FewerParamsSelectMore(t: Thruk, andFirst: bool, direct: Query, row: Row)
    requires Selects(t, Logs, andFirst, direct, row)
    ensures Selects(t, Logs, andFirst, WithoutPattern(direct), row)
  {
    var rest := direct.params - {HOST_NAME_REGEX};
    forall k | k in rest ensures ParamHolds(t, Logs, k, rest[k], row) {
      assert k in direct.params;
    }
  }

  /** The rows selected beyond the filter are exactly those whose host is looked up, that meet the direct part's
      query without its host pattern, and that fail the lookup part or the direct part. */
  lemma ExtraRowsExactly(t: Thruk, andFirst: bool, n: Node, hosts: seq<Row>, server: Query -> seq<Row>, row: Row)
    requires Setting(t, andFirst, n, hosts, server)
    requires Resolution(n, server).Resolved? && !Resolution(n, server).truncated
    ensures Selects(t, Logs, andFirst, Resolution(n, server).query, row) && !Holds(t, Logs, n, row) <==>
      && LookedUp(t, andFirst, n, hosts, row)
      && Selects(t, Logs, andFirst, WithoutPattern(CompilePart(Logs, Wrap(Direct(n))).value), row)
      && !(PartHolds(t, Logs, Wrap(LookupLeaves(n)), row) && PartHolds(t, Logs, Wrap(Direct(n)), row))
  {
    ResolvedSelects(t, andFirst, n, hosts, server, row);
    SplitKeepsMeaning(t, Logs, n, row);
  }

  /** The list is reported truncated exactly where hosts are looked up and at least 20000 names came back. */
  lemma TruncatedExactly(n: Node, server: Query -> seq<Row>)
    requires CompilePart(Logs, Wrap(Direct(n))).Ok? && CompilePart(Hosts, Wrap(LookupLeaves(n))).Ok?
    requires Resolution(n, server).Resolved?
    ensures Resolution(n, server).truncated <==>
      LookupLeaves(n) != [] &&
      var hosts := server(CompilePart(Hosts, Wrap(LookupLeaves(n))).value);
      |NamesOf(if |hosts| <= 20000 then hosts else hosts[..20000])| >= 20000
  {
    var hosts := server(CompilePart(Hosts, Wrap(LookupLeaves(n))).value);
    assert Pagination.Slice(hosts, 0, 20000) == if |hosts| <= 20000 then hosts else hosts[..20000];
  }

  // ---- The host pattern that is lost -----------------------------------------------------------------------

  /** A leaf that asks for the host name as a pattern. */
  predicate IsHostPattern(l: Node) {
    l.Leaf? && l.field == Host && l.op in {Regex, In}
  }

  /** The leaves that become other parameters than the host pattern. */
  function OtherLeaves(leaves: seq<Node>): seq<Node> {
    if leaves == [] then []
    else if IsHostPattern(leaves[0]) then OtherLeaves(leaves[1..])
    else [leaves[0]] + OtherLeaves(leaves[1..])
  }

  lemma {:induction false} OtherLeavesExactly(leaves: seq<Node>, l: Node)
    ensures l in OtherLeaves(leaves) <==> l in leaves && !IsHostPattern(l)
  {
    if leaves == [] {
    } else {
      OtherLeavesExactly(leaves[1..], l);
      assert leaves == [leaves[0]] + leaves[1..];
    }
  }

  /** A direct part whose parameters are faithful and free of clashes, the host patterns apart. */
  ghost predicate PatternsApart(direct: Node) {
    var e := Expand(direct);
    && WellFormed(direct) && Compile(Logs, direct).Ok? && FaithfulTextTree(Logs, e)
    && NoClash(Logs, OtherLeaves(BracketLeaves(e)))
    && forall l :: l in OtherLeaves(BracketLeaves(e)) ==> FaithfulBracketNode(Logs, l)
  }

  /** Without the host pattern, the parameters say what the other leaves say. */
  lemma OtherParamsExact(t: Thruk, direct: Node, row: Row)
    requires PatternsApart(direct)
    ensures ParamsHold(t, Logs, Compile(Logs, direct).value.params - {HOST_NAME_REGEX}, row)
       <==> AllHold(t, Logs, OtherLeaves(BracketLeaves(Expand(direct))), row)
  {
    var leaves := BracketLeaves(Expand(direct));
    var m := Compile(Logs, direct).value.params;
    var rest := m - {HOST_NAME_REGEX};
    CompileSplits(Logs, direct);
    ExpandIsWellFormed(direct);
    PartsAreWellFormed(Expand(direct));
    if ParamsHold(t, Logs, rest, row) {
      forall l | l in OtherLeaves(leaves) ensures Holds(t, Logs, l, row) {
        OtherLeafHolds(t, direct, row, l);
      }
    }
    if AllHold(t, Logs, OtherLeaves(leaves), row) {
      forall k | k in rest ensures ParamHolds(t, Logs, k, rest[k], row) {
        var l := EntryComesFromLeaf(Logs, leaves, k);
        PatternKeyExactly(l);
        OtherLeavesExactly(leaves, l);
        BracketLeafExact(t, Logs, l.field, l.op, l.value, row);
      }
    }
  }

  lemma OtherLeafHolds(t: Thruk, direct: Node, row: Row, l: Node)
    requires PatternsApart(direct) && l in OtherLeaves(BracketLeaves(Expand(direct)))
    requires ParamsHold(t, Logs, Compile(Logs, direct).value.params - {HOST_NAME_REGEX}, row)
    ensures Holds(t, Logs, l, row)
  {
    var leaves := BracketLeaves(Expand(direct));
    CompileSplits(Logs, direct);
    ExpandIsWellFormed(direct);
    PartsAreWellFormed(Expand(direct));
    OtherLeavesExactly(leaves, l);
    LeafKeysAreIn(Logs, map[], leaves, l);
    PatternKeyExactly(l);
    var k := ParamOf(Logs, l).value.0;
    var o := EntryComesFromLeaf(Logs, leaves, k);
    PatternKeyExactly(o);
    OtherLeavesExactly(leaves, o);
    assert SameKey(Logs, o, l);
    assert k in Compile(Logs, direct).value.params - {HOST_NAME_REGEX};
    BracketLeafExact(t, Logs, l.field, l.op, l.value, row);
  }

  /** What the direct part says beside its host patterns. */
  ghost predicate HoldsApart(t: Thruk, direct: Node, row: Row) {
    var e := Expand(direct);
    AllHold(t, Logs, OtherLeaves(BracketLeaves(e)), row) && PartHolds(t, Logs, TextTree(e), row)
  }

  /** The direct part holds when everything beside its host patterns does, and all of those do. */
  lemma PatternsAreTheRest(t: Thruk, direct: Node, row: Row)
    requires WellFormed(direct)
    ensures Holds(t, Logs, direct, row) <==>
      && HoldsApart(t, direct, row)
      && forall l :: l in BracketLeaves(Expand(direct)) && IsHostPattern(l) ==> Holds(t, Logs, l, row)
  {
    var e := Expand(direct);
    ExpandKeepsMeaning(t, Logs, direct, row);
    RoutesCoverTree(t, Logs, e, row);
    forall l ensures l in OtherLeaves(BracketLeaves(e)) <==> l in BracketLeaves(e) && !IsHostPattern(l) {
      OtherLeavesExactly(BracketLeaves(e), l);
    }
  }

  lemma WithoutPatternSelects(t: Thruk, andFirst: bool, direct: Node, row: Row)
    requires PatternsApart(direct)
    ensures Selects(t, Logs, andFirst, WithoutPattern(Compile(Logs, direct).value), row) <==> HoldsApart(t, direct, row)
  {
    OtherParamsExact(t, direct, row);
    CompileSplits(Logs, direct);
    ExpandIsWellFormed(direct);
    PartsAreWellFormed(Expand(direct));
    if TextTree(Expand(direct)).Some? {
      BuildQSelects(t, Logs, andFirst, TextTree(Expand(direct)).value, row);
    }
  }

  /** So, for `regex` and `in` alike, the rows selected beyond the filter are exactly those whose host is looked
      up, that meet everything the direct part says beside its host patterns, and that fail the lookup part or
      some host pattern. */
  lemma HostPatternIsLostExactly(t: Thruk, andFirst: bool, n: Node, hosts: seq<Row>, server: Query -> seq<Row>,
                                 row: Row)
    requires Setting(t, andFirst, n, hosts, server)
    requires Resolution(n, server).Resolved? && !Resolution(n, server).truncated
    requires Direct(n) != [] && PatternsApart(Conjoin(Direct(n)))
    ensures Selects(t, Logs, andFirst, Resolution(n, server).query, row) && !Holds(t, Logs, n, row) <==>
      && LookedUp(t, andFirst, n, hosts, row) && HoldsApart(t, Conjoin(Direct(n)), row)
      && (PartHolds(t, Logs, Wrap(LookupLeaves(n)), row) ==> FailsPattern(t, Conjoin(Direct(n)), row))
  {
    var direct := Conjoin(Direct(n));
    ExtraRowsExactly(t, andFirst, n, hosts, server, row);
    WithoutPatternSelects(t, andFirst, direct, row);
    PatternsAreTheRest(t, direct, row);
  }

  ghost predicate FailsPattern(t: Thruk, direct: Node, row: Row) {
    exists l :: l in BracketLeaves(Expand(direct)) && IsHostPattern(l) && !Holds(t, Logs, l, row)
  }

  /** If no host is found, the filter selects no row, clashing keys or not. */
  lemma NoHostsNoRows(t: Thruk, andFirst: bool, n: Node, hosts: seq<Row>, server: Query -> seq<Row>, row: Row)
    requires Setting(t, andFirst, n, hosts, server) && Listed(hosts, row)
    requires KeepingPart(Hosts, Wrap(LookupLeaves(n))) && Resolution(n, server).NoHosts?
    ensures !Holds(t, Logs, n, row)
  {
    var lookup := CompilePart(Hosts, Wrap(LookupLeaves(n))).value;
    FoundExactly(t, andFirst, lookup, hosts, row, RESOLVE_HOSTS_HARD_LIMIT);
    LookupPartIs(n);
    if Holds(t, Logs, n, row) {
      SplitKeepsMeaning(t, Logs, n, row);
      HostFoundKeeps(t, andFirst, LookupLeaves(n), hosts, row);
    }
  }

  lemma PatternKeyExactly(l: Node)
    requires l.Leaf? && ParamOf(Logs, l).Ok? && WellFormed(l)
    ensures ParamOf(Logs, l).value.0 == HOST_NAME_REGEX <==> IsHostPattern(l)
  {
  }

  /** The direct part says something on the host name as a pattern exactly when a `regex` or an `in` on the
      host is compiled to a parameter. */
  lemma PatternTakenExactly(direct: Node)
    requires WellFormed(direct) && Compile(Logs, direct).Ok?
    ensures HOST_NAME_REGEX in Compile(Logs, direct).value.params <==>
      exists l :: l in BracketLeaves(Expand(direct)) && IsHostPattern(l)
  {
    var leaves := BracketLeaves(Expand(direct));
    CompileSplits(Logs, direct);
    ExpandIsWellFormed(direct);
    PartsAreWellFormed(Expand(direct));
    if HOST_NAME_REGEX in Compile(Logs, direct).value.params {
      var l := EntryComesFromLeaf(Logs, leaves, HOST_NAME_REGEX);
      PatternKeyExactly(l);
    }
    if l :| l in leaves && IsHostPattern(l) {
      LeafKeysAreIn(Logs, map[], leaves, l);
      PatternKeyExactly(l);
    }
  }

  lemma LeafCompiles(ctx: Context, l: Node)
    requires l.Leaf? && WellFormed(l) && NoGroupIn(l) && ParamOf(ctx, l).Ok?
    ensures CompilePart(ctx, Some(l)) == Ok(Query(map[ParamOf(ctx, l).value.0 := ParamOf(ctx, l).value.1], None))
    ensures BracketLeaves(Expand(l)) == [l]
  {
  }

  lemma LeafIsExact(ctx: Context, l: Node)
    requires l.Leaf? && WellFormed(l) && NoGroupIn(l) && FaithfulBracketNode(ctx, l) && ParamOf(ctx, l).Ok?
    ensures ExactPart(ctx, Some(l))
  {
    LeafCompiles(ctx, l);
  }

  lemma ListSplits(c: Node, conds: seq<Node>)
    ensures DirectAll([c] + conds) == Direct(c) + DirectAll(conds)
    ensures LookupAll([c] + conds) == LookupLeaves(c) + LookupAll(conds)
  {
    assert ([c] + conds)[1..] == conds;
  }

  lemma PairSplits(a: Node, b: Node)
    requires a.Leaf? && b.Leaf? && !IsLookup(a.field) && IsLookup(b.field)
    ensures Direct(Group(false, [a, b])) == [a] && LookupLeaves(Group(false, [a, b])) == [b]
  {
    ListSplits(b, []);
    ListSplits(a, [b]);
    assert [b] + [] == [b] && [a] + [b] == [a, b];
  }

  /** `host` as a pattern and `hostgroup` together: a row of a host in the group that does not match the
      pattern is selected. */
  lemma HostPatternLost(t: Thruk, andFirst: bool, server: Query -> seq<Row>)
    requires !t.rx("a", "b")
    requires forall q :: server(q) == Matching(t, andFirst, q, [Row(map[Name := "b"], 0, 0, {"G"}, {}, map[], map[])])
    ensures var n := Group(false, [Leaf(Host, Regex, One("a")), Leaf(Hostgroup, Eq, One("G"))]);
      var row := Row(map[Host := "b"], 0, 0, {"G"}, {}, map[], map[]);
      && Resolution(n, server).Resolved?
      && Selects(t, Logs, andFirst, Resolution(n, server).query, row) && !Holds(t, Logs, n, row)
  {
    var row := Row(map[Host := "b"], 0, 0, {"G"}, {}, map[], map[]);
    var a, b := Leaf(Host, Regex, One("a")), Leaf(Hostgroup, Eq, One("G"));
    PairSplits(a, b);
    PatternIsReplaced(t, andFirst, a, b, Given(One("a")), server);
    RowIsExtra(t, andFirst, a, b, Given(One("a")), ["b"], row);
  }

  /** The same with a list of hosts: the list is dropped. */
  lemma HostListLost(t: Thruk, andFirst: bool, server: Query -> seq<Row>)
    requires forall q :: server(q) == Matching(t, andFirst, q, [Row(map[Name := "b"], 0, 0, {"G"}, {}, map[], map[])])
    ensures var n := Group(false, [Leaf(Host, In, Many(["a"])), Leaf(Hostgroup, Eq, One("G"))]);
      var row := Row(map[Host := "b"], 0, 0, {"G"}, {}, map[], map[]);
      && Resolution(n, server).Resolved?
      && Selects(t, Logs, andFirst, Resolution(n, server).query, row) && !Holds(t, Logs, n, row)
  {
    var row := Row(map[Host := "b"], 0, 0, {"G"}, {}, map[], map[]);
    var a, b := Leaf(Host, In, Many(["a"])), Leaf(Hostgroup, Eq, One("G"));
    PairSplits(a, b);
    PatternIsReplaced(t, andFirst, a, b, AnyOf(["a"]), server);
    RowIsExtra(t, andFirst, a, b, AnyOf(["a"]), ["b"], row);
  }

  lemma RowIsExtra(t: Thruk, andFirst: bool, a: Node, b: Node, p: Param, names: seq<string>, row: Row)
    requires TextOf(row, Host) in names && !Holds(t, Logs, a, row)
    ensures Selects(t, Logs, andFirst, WithHosts(Query(map[HOST_NAME_REGEX := p], None), names), row)
    ensures !Holds(t, Logs, Group(false, [a, b]), row)
  {
    WithHostsSelects(t, andFirst, Query(map[HOST_NAME_REGEX := p], None), names, row);
    assert a in [a, b];
  }

  lemma PatternIsReplaced(t: Thruk, andFirst: bool, a: Node, b: Node, p: Param, server: Query -> seq<Row>)
    requires IsHostPattern(a) && WellFormed(a) && ParamOf(Logs, a) == Ok((HOST_NAME_REGEX, p))
    requires b == Leaf(Hostgroup, Eq, One("G"))
    requires forall q :: server(q) == Matching(t, andFirst, q, [Row(map[Name := "b"], 0, 0, {"G"}, {}, map[], map[])])
    ensures CompilePart(Logs, Some(a)) == Ok(Query(map[HOST_NAME_REGEX := p], None))
    ensures ResolveParts(Some(a), Some(b), server)
         == Resolved(WithHosts(CompilePart(Logs, Some(a)).value, ["b"]), false)
  {
    var host := Row(map[Name := "b"], 0, 0, {"G"}, {}, map[], map[]);
    LeafCompiles(Logs, a);
    LeafIsExact(Hosts, b);
    LookupFindsHost(t, andFirst, b, host);
    assert [host][1..] == [] && NamesOf([]) == [];
    assert NamesOf([host]) == ["b"];
  }

  lemma LookupFindsHost(t: Thruk, andFirst: bool, l: Node, host: Row)
    requires ExactPart(Hosts, Some(l)) && Holds(t, Hosts, l, host)
    ensures Matching(t, andFirst, CompilePart(Hosts, Some(l)).value, [host]) == [host]
  {
    ExactPartSelects(t, Hosts, andFirst, Some(l), host);
    OneHostMatches(t, andFirst, CompilePart(Hosts, Some(l)).value, host);
  }

  /** Two host groups: the hosts of the second alone are looked up, and a row of one that is not in the first is
      selected. */
  lemma LookupGroupLost(t: Thruk, andFirst: bool, server: Query -> seq<Row>)
    requires forall q :: server(q) == Matching(t, andFirst, q, [Row(map[Name := "h"], 0, 0, {"B"}, {}, map[], map[])])
    ensures var n := Group(false, [Leaf(Hostgroup, Eq, One("A")), Leaf(Hostgroup, Eq, One("B"))]);
      var row := Row(map[Host := "h"], 0, 0, {"B"}, {}, map[], map[]);
      && Resolution(n, server).Resolved?
      && Selects(t, Logs, andFirst, Resolution(n, server).query, row) && !Holds(t, Logs, n, row)
  {
    var row := Row(map[Host := "h"], 0, 0, {"B"}, {}, map[], map[]);
    var a, b := Leaf(Hostgroup, Eq, One("A")), Leaf(Hostgroup, Eq, One("B"));
    LookupPairFinds(t, andFirst, a, b, Row(map[Name := "h"], 0, 0, {"B"}, {}, map[], map[]), server);
    FoundRowIsExtra(t, andFirst, a, b, ["h"], row);
  }

  lemma FoundRowIsExtra(t: Thruk, andFirst: bool, a: Node, b: Node, names: seq<string>, row: Row)
    requires TextOf(row, Host) in names && a.Leaf? && a.field == Hostgroup && a.op == Eq
    requires a.value.One? && a.value.s !in row.groups
    ensures Selects(t, Logs, andFirst, WithHosts(NOTHING, names), row) && !Holds(t, Logs, Group(false, [a, b]), row)
  {
    WithHostsSelects(t, andFirst, NOTHING, names, row);
    assert a in [a, b];
  }

  lemma LookupPairFinds(t: Thruk, andFirst: bool, a: Node, b: Node, host: Row, server: Query -> seq<Row>)
    requires a == Leaf(Hostgroup, Eq, One("A")) && b == Leaf(Hostgroup, Eq, One("B")) && host.groups == {"B"}
    requires NameOf(host) != ""
    requires forall q :: server(q) == Matching(t, andFirst, q, [host])
    ensures Resolution(Group(false, [a, b]), server) == Resolved(WithHosts(NOTHING, [NameOf(host)]), false)
  {
    LookupPair(a, b);
    CompiledPair(Hosts, a, b);
    var query := Query(PairOf(Hosts, a, b), None);
    SecondGroupMeets(t, Hosts, host);
    OneHostMatches(t, andFirst, query, host);
    assert [host][1..] == [] && NamesOf([]) == [];
    assert NamesOf([host]) == [NameOf(host)];
  }

  lemma LookupPair(a: Node, b: Node)
    requires a.Leaf? && b.Leaf? && IsLookup(a.field) && IsLookup(b.field)
    ensures Direct(Group(false, [a, b])) == [] && LookupLeaves(Group(false, [a, b])) == [a, b]
    ensures Wrap([a, b]) == Some(Group(false, [a, b]))
  {
    ListSplits(b, []);
    ListSplits(a, [b]);
    assert [b] + [] == [b] && [a] + [b] == [a, b];
  }

  lemma OneHostMatches(t: Thruk, andFirst: bool, query: Query, host: Row)
    requires Selects(t, Hosts, andFirst, query, host)
    ensures Matching(t, andFirst, query, [host]) == [host]
  {
    assert [host][1..] == [];
    assert Matching(t, andFirst, query, []) == [];
  }
}
