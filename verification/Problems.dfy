/** `thruk_problems`: one filter compiled for hosts and for services side by side (filters.py), and the
    check of host groups on the rows that come back (inventory.py).

    Two leaves with the same key overwrite each other here too, and a backend may answer with rows outside
    the groups asked for. The check on the client makes up for both. */
module Problems {
  import opened Basics
  import opened FilterTree
  import opened ThrukQuery
  import opened LeafMeaning
  import opened ParamDictionary
  import opened FilterMeaning
  import opened Pruning

  // ---- The two dictionaries --------------------------------------------------------------------------

  /** `_HOST_STATE_MAP.get(raw, _SVC_STATE_MAP.get(raw, value))`. */
  function ProblemState(s: string): StateArg {
    var raw := Lower(s);
    if HostStateInt(raw).Some? then Code(HostStateInt(raw).value)
    else if SvcStateInt(raw).Some? then Code(SvcStateInt(raw).value)
    else Raw(s)
  }

  function StateOp(op: Op): BracketOp {
    match op
    case Neq => Ne
    case Eq => Plain
    case Gte => GteOp
    case Lte => LteOp
    case other => RegexOp
  }

  predicate Unsupported(l: Node) {
    l.Leaf? && l.field == State && l.op == In
  }

  /** What one leaf adds to the host side; on the service side the key is another, the value the same. */
  function Entry(l: Node): Option<(Key, Param)> {
    if !l.Leaf? then None
    else if IsCv(l.field) then
      if l.value.Variable? then Some((Key(VarCol(Upper(l.value.name)), Plain), Given(One(l.value.val)))) else None
    else if l.field == Hostgroup then Some((Key(GroupsCol, if l.op == Neq then NotIn else GteOp), Given(l.value)))
    else if l.field == State then
      Some((Key(StateCol, StateOp(l.op)), if l.value.One? then StateParam(ProblemState(l.value.s)) else Given(l.value)))
    else None
  }

  function ServiceKey(k: Key): Key {
    match k.column
    case VarCol(name) => Key(VarCol(HOST_PREFIX + name), k.bop)
    case GroupsCol => Key(HostGroupsCol, k.bop)
    case other => k
  }

  datatype Both = Both(host: Params, service: Params)

  /** `_apply`: both dictionaries get the entry. */
  function Apply(b: Both, l: Node): Both {
    match Entry(l)
    case None => b
    case Some((k, p)) => Both(b.host[k := p], b.service[ServiceKey(k) := p])
  }

  function ApplyAll(b: Both, leaves: seq<Node>): Both
    decreases |leaves|
  {
    if leaves == [] then b else ApplyAll(Apply(b, leaves[0]), leaves[1..])
  }

  lemma {:induction false} ApplyAllTwice(b: Both, first: seq<Node>, second: seq<Node>)
    ensures ApplyAll(b, first + second) == ApplyAll(ApplyAll(b, first), second)
    decreases |first|
  {
    if first == [] {
      assert first + second == second;
    } else {
      assert (first + second)[1..] == first[1..] + second;
      ApplyAllTwice(Apply(b, first[0]), first[1..], second);
    }
  }

  /** `_walk` raises on an OR anywhere, and on `in` for a state. */
  predicate Rejected(n: Node) {
    match n
    case Leaf(_, _, _) => Unsupported(n)
    case Group(isOr, conds) => isOr || exists c :: c in conds && Rejected(c)
  }

  method Walk(b: Both, n: Node) returns (r: Outcome<Both>)
    ensures r == if Rejected(n) then FilterError else Ok(ApplyAll(b, Leaves(n)))
    decreases n
  {
    if n.Leaf? {
      assert Leaves(n)[1..] == [];
      return if Unsupported(n) then FilterError else Ok(Apply(b, n));
    }
    if n.isOr {
      return FilterError;
    }
    var now := b;
    for i := 0 to |n.conds|
      invariant forall j :: 0 <= j < i ==> !Rejected(n.conds[j])
      invariant ApplyAll(now, LeavesOf(n.conds[i..])) == ApplyAll(b, LeavesOf(n.conds))
    {
      assert n.conds[i..][1..] == n.conds[i + 1..];
      ApplyAllTwice(now, Leaves(n.conds[i]), LeavesOf(n.conds[i + 1..]));
      var child := Walk(now, n.conds[i]);
      if child.FilterError? {
        return FilterError;
      }
      now := child.value;
    }
    assert n.conds[|n.conds|..] == [];
    return Ok(now);
  }

  const NONE := Both(map[], map[])

  /** The two dictionaries of a tree. */
  function Compiled(n: Node): Both {
    ApplyAll(NONE, Leaves(n))
  }

  /** `compile_filter_problems`. */
  method CompileFilterProblems(n: Node) returns (r: Outcome<Both>)
    ensures r == if Rejected(n) then FilterError else Ok(Compiled(n))
  {
    r := Walk(NONE, n);
  }

  /** It raises exactly on a tree with an OR, or with `in` on a state. */
  lemma {:induction false} RejectedExactly(n: Node)
    ensures Rejected(n) <==> HasOr(n) || exists l :: l in Leaves(n) && Unsupported(l)
    decreases n, 1
  {
    if n.Leaf? {
    } else {
      RejectedExactlyAll(n.conds);
    }
  }

  lemma {:induction false} RejectedExactlyAll(conds: seq<Node>)
    ensures (exists c :: c in conds && Rejected(c)) <==>
      (exists c :: c in conds && HasOr(c)) || exists l :: l in LeavesOf(conds) && Unsupported(l)
    decreases conds, 0
  {
    if conds == [] {
    } else {
      RejectedExactly(conds[0]);
      RejectedExactlyAll(conds[1..]);
      assert conds == [conds[0]] + conds[1..];
    }
  }

  /** A state is resolved with both maps, whatever the order they are asked in. */
  lemma ProblemStateIsCode(s: string)
    ensures ArgCode(ProblemState(s)) == StateCode(Hosts, s)
  {
    if IsDigits(s) {
      LowerDigits(s);
      DigitStates(s);
    }
  }

  // ---- Hosts and services agree ------------------------------------------------------------------------

  /** Entry for entry, the service dictionary is the host dictionary under other keys. */
  ghost predicate Mirrored(b: Both) {
    && (forall k :: k in b.host ==> ServiceKey(k) in b.service && b.service[ServiceKey(k)] == b.host[k])
    && (forall j :: j in b.service ==> exists k :: k in b.host && ServiceKey(k) == j)
    && (forall k :: k in b.host ==> k.column != HostGroupsCol)
  }

  lemma ServiceKeyIsInjective(j: Key, k: Key)
    requires j.column != HostGroupsCol && k.column != HostGroupsCol && ServiceKey(j) == ServiceKey(k)
    ensures j == k
  {
    if j.column.VarCol? && k.column.VarCol? {
      assert (HOST_PREFIX + j.column.name)[|HOST_PREFIX|..] == j.column.name;
      assert (HOST_PREFIX + k.column.name)[|HOST_PREFIX|..] == k.column.name;
    }
  }

  lemma EntryIsMirrored(b: Both, l: Node, j: Key)
    requires Mirrored(b) && Entry(l).Some? && j in Apply(b, l).host
    ensures var after := Apply(b, l);
      ServiceKey(j) in after.service && after.service[ServiceKey(j)] == after.host[j] && j.column != HostGroupsCol
  {
    var (k, p) := Entry(l).value;
    if j != k && ServiceKey(j) == ServiceKey(k) {
      ServiceKeyIsInjective(j, k);
    }
  }

  lemma EntryHasSource(b: Both, l: Node, j: Key)
    requires Mirrored(b) && Entry(l).Some? && j in Apply(b, l).service
    ensures exists i :: i in Apply(b, l).host && ServiceKey(i) == j
  {
    var (k, p) := Entry(l).value;
    if j == ServiceKey(k) {
      assert k in Apply(b, l).host;
    } else {
      var i :| i in b.host && ServiceKey(i) == j;
      assert i in Apply(b, l).host;
    }
  }

  lemma ApplyMirrors(b: Both, l: Node)
    requires Mirrored(b)
    ensures Mirrored(Apply(b, l))
  {
    if Entry(l).Some? {
      forall j | j in Apply(b, l).host
        ensures ServiceKey(j) in Apply(b, l).service
        ensures Apply(b, l).service[ServiceKey(j)] == Apply(b, l).host[j] && j.column != HostGroupsCol
      {
        EntryIsMirrored(b, l, j);
      }
      forall j | j in Apply(b, l).service ensures exists i :: i in Apply(b, l).host && ServiceKey(i) == j {
        EntryHasSource(b, l, j);
      }
    }
  }

  lemma {:induction false} ApplyAllMirrors(b: Both, leaves: seq<Node>)
    requires Mirrored(b)
    ensures Mirrored(ApplyAll(b, leaves))
    decreases |leaves|
  {
    if leaves == [] {
    } else {
      ApplyMirrors(b, leaves[0]);
      ApplyAllMirrors(Apply(b, leaves[0]), leaves[1..]);
    }
  }

  /** The parameters on the state, and those on anything else. */
  ghost predicate StatePart(t: Thruk, ctx: Context, params: Params, row: Row) {
    forall k :: k in params && k.column.StateCol? ==> ParamHolds(t, ctx, k, params[k], row)
  }

  ghost predicate OtherPart(t: Thruk, ctx: Context, params: Params, row: Row) {
    forall k :: k in params && !k.column.StateCol? ==> ParamHolds(t, ctx, k, params[k], row)
  }

  lemma EntryMeansTheSame(t: Thruk, k: Key, p: Param, service: Row, host: Row)
    requires k.column.VarCol? || k.column.GroupsCol?
    requires service.hostGroups == host.groups && service.hostVars == host.vars
    ensures ParamHolds(t, Services, ServiceKey(k), p, service) <==> ParamHolds(t, Hosts, k, p, host)
  {
    if k.column.VarCol? {
      UpperHost(k.column.name);
    }
  }

  ghost predicate HasState(leaves: seq<Node>) {
    exists l :: l in leaves && l.Leaf? && l.field == State
  }

  /** Host keys are about variables, groups or, only if a leaf is, the state. */
  lemma HostColumns(leaves: seq<Node>, k: Key)
    requires k in ApplyAll(NONE, leaves).host
    ensures k.column.VarCol? || k.column.GroupsCol? || (k.column.StateCol? && HasState(leaves))
  {
    var l := EntryComesFrom(Hosts, leaves, k);
  }

  lemma MirroredAt(leaves: seq<Node>, k: Key)
    requires k in ApplyAll(NONE, leaves).host
    ensures var b := ApplyAll(NONE, leaves); ServiceKey(k) in b.service && b.service[ServiceKey(k)] == b.host[k]
  {
    ApplyAllMirrors(NONE, leaves);
  }

  /** Off the state, a host and its service meet each entry alike. */
  lemma KeyAgrees(t: Thruk, leaves: seq<Node>, k: Key, service: Row, host: Row)
    requires service.hostGroups == host.groups && service.hostVars == host.vars
    requires k in ApplyAll(NONE, leaves).host && !k.column.StateCol?
    ensures var b := ApplyAll(NONE, leaves);
      && ServiceKey(k) in b.service && !ServiceKey(k).column.StateCol?
      && (ParamHolds(t, Services, ServiceKey(k), b.service[ServiceKey(k)], service)
          <==> ParamHolds(t, Hosts, k, b.host[k], host))
  {
    MirroredAt(leaves, k);
    HostColumns(leaves, k);
    EntryMeansTheSame(t, k, ApplyAll(NONE, leaves).host[k], service, host);
  }

  lemma OthersAgree(t: Thruk, leaves: seq<Node>, service: Row, host: Row)
    requires service.hostGroups == host.groups && service.hostVars == host.vars
    ensures var b := ApplyAll(NONE, leaves);
      OtherPart(t, Services, b.service, service) <==> OtherPart(t, Hosts, b.host, host)
  {
    var b := ApplyAll(NONE, leaves);
    ApplyAllMirrors(NONE, leaves);
    if OtherPart(t, Services, b.service, service) {
      forall k | k in b.host && !k.column.StateCol? ensures ParamHolds(t, Hosts, k, b.host[k], host) {
        KeyAgrees(t, leaves, k, service, host);
      }
    }
    if OtherPart(t, Hosts, b.host, host) {
      forall j | j in b.service && !j.column.StateCol? ensures ParamHolds(t, Services, j, b.service[j], service) {
        var k :| k in b.host && ServiceKey(k) == j;
        KeyAgrees(t, leaves, k, service, host);
      }
    }
  }

  lemma StateKeyStays(b: Both, j: Key)
    requires Mirrored(b) && j.column.StateCol?
    ensures j in b.service <==> j in b.host
    ensures j in b.service && j in b.host ==> b.service[j] == b.host[j]
  {
    assert ServiceKey(j) == j;
    if j in b.service {
      var k :| k in b.host && ServiceKey(k) == j;
    }
  }

  /** The parameters on the state are the same on both sides. */
  lemma StatesAgree(t: Thruk, leaves: seq<Node>, row: Row)
    ensures var b := ApplyAll(NONE, leaves);
      StatePart(t, Services, b.service, row) <==> StatePart(t, Hosts, b.host, row)
  {
    var b := ApplyAll(NONE, leaves);
    ApplyAllMirrors(NONE, leaves);
    forall k: Key | k.column.StateCol? && (k in b.service || k in b.host)
      ensures k in b.service && k in b.host && b.service[k] == b.host[k]
    {
      StateKeyStays(b, k);
    }
  }

  lemma HoldsInParts(t: Thruk, ctx: Context, params: Params, row: Row)
    ensures ParamsHold(t, ctx, params, row) <==> StatePart(t, ctx, params, row) && OtherPart(t, ctx, params, row)
  {
  }

  /** A service that carries its host's groups and variables meets its parameters as the host meets its own,
      exactly when their two states meet the parameters on the state alike or another parameter fails. */
  lemma BothSidesAgreeExactly(t: Thruk, n: Node, service: Row, host: Row)
    requires service.hostGroups == host.groups && service.hostVars == host.vars
    ensures var b := Compiled(n);
      (ParamsHold(t, Services, b.service, service) <==> ParamsHold(t, Hosts, b.host, host)) <==>
        (OtherPart(t, Hosts, b.host, host) ==>
           (StatePart(t, Hosts, b.host, service) <==> StatePart(t, Hosts, b.host, host)))
  {
    var b := Compiled(n);
    HoldsInParts(t, Services, b.service, service);
    HoldsInParts(t, Hosts, b.host, host);
    OthersAgree(t, Leaves(n), service, host);
    StatesAgree(t, Leaves(n), service);
  }

  /** In particular they agree where the filter asks for no state, and where the states are equal. */
  lemma BothSidesAgree(t: Thruk, n: Node, service: Row, host: Row)
    requires service.hostGroups == host.groups && service.hostVars == host.vars
    requires HasState(Leaves(n)) ==> service.state == host.state
    ensures ParamsHold(t, Services, Compiled(n).service, service) <==> ParamsHold(t, Hosts, Compiled(n).host, host)
  {
    BothSidesAgreeExactly(t, n, service, host);
    forall k | k in Compiled(n).host && k.column.StateCol? ensures service.state == host.state {
      HostColumns(Leaves(n), k);
    }
  }

  /** With a state leaf the two can part: a DOWN host and its CRITICAL service. */
  lemma StatesPartTheSides(t: Thruk)
    ensures var n := Leaf(State, Eq, One("down"));
      var host, service := Row(map[], 1, 0, {}, {}, map[], map[]), Row(map[], 2, 0, {}, {}, map[], map[]);
      && ParamsHold(t, Hosts, Compiled(n).host, host) && !ParamsHold(t, Services, Compiled(n).service, service)
  {
    var l := Leaf(State, Eq, One("down"));
    assert [l][1..] == [];
    assert ApplyAll(NONE, [l]) == ApplyAll(Apply(NONE, l), []);
    LowerDown();
    var k := Key(StateCol, Plain);
    assert Apply(NONE, l).service == map[k := StateParam(Code(1))];
    assert k in Apply(NONE, l).service;
  }

  lemma LowerDown()
    ensures Lower("down") == "down"
  {
    assert "down"[1..] == "own" && "own"[1..] == "wn" && "wn"[1..] == "n" && "n"[1..] == "";
    assert Lower("n") == "n";
    assert Lower("wn") == "wn";
    assert Lower("own") == "own";
  }

  // ---- The check on the client ---------------------------------------------------------------------------

  datatype Constraint = Constraint(op: Op, value: Value)

  function Constraints(leaves: seq<Node>): seq<Constraint> {
    if leaves == [] then [] else OneConstraint(leaves[0]) + Constraints(leaves[1..])
  }

  function OneConstraint(l: Node): seq<Constraint> {
    if l.Leaf? && l.field == Hostgroup then [Constraint(l.op, l.value)] else []
  }

  function GatherOne(found: seq<Constraint>, l: Node): seq<Constraint> {
    if l.Leaf? && l.field == Hostgroup then found + [Constraint(l.op, l.value)] else found
  }

  /** The constraints appended one by one. */
  function Gather(found: seq<Constraint>, leaves: seq<Node>): seq<Constraint>
    decreases |leaves|
  {
    if leaves == [] then found
    else Gather(GatherOne(found, leaves[0]), leaves[1..])
  }

  lemma {:induction false} GatherTwice(found: seq<Constraint>, first: seq<Node>, second: seq<Node>)
    ensures Gather(found, first + second) == Gather(Gather(found, first), second)
    decreases |first|
  {
    if first == [] {
      assert first + second == second;
    } else {
      var l := first[0];
      assert (first + second)[1..] == first[1..] + second;
      GatherTwice(GatherOne(found, l), first[1..], second);
    }
  }

  lemma {:induction false} GatherAppends(found: seq<Constraint>, leaves: seq<Node>)
    ensures Gather(found, leaves) == found + Constraints(leaves)
    decreases |leaves|
  {
    if leaves == [] {
    } else {
      var l := leaves[0];
      GatherAppends(GatherOne(found, l), leaves[1..]);
      assert GatherOne(found, l) == found + OneConstraint(l);
      assert found + OneConstraint(l) + Constraints(leaves[1..])
          == found + (OneConstraint(l) + Constraints(leaves[1..]));
    }
  }

  /** `_walk` of `_collect_hostgroup_constraints`, the list growing as the tree is walked. */
  method WalkHostgroups(found: seq<Constraint>, n: Node) returns (all: seq<Constraint>)
    ensures all == Gather(found, Leaves(n))
    decreases n
  {
    all := found;
    if n.Leaf? {
      assert Leaves(n)[1..] == [];
      if n.field == Hostgroup {
        all := all + [Constraint(n.op, n.value)];
      }
      return;
    }
    for i := 0 to |n.conds|
      invariant Gather(all, LeavesOf(n.conds[i..])) == Gather(found, LeavesOf(n.conds))
    {
      assert n.conds[i..][1..] == n.conds[i + 1..];
      GatherTwice(all, Leaves(n.conds[i]), LeavesOf(n.conds[i + 1..]));
      all := WalkHostgroups(all, n.conds[i]);
    }
    assert n.conds[|n.conds|..] == [];
  }

  /** `_collect_hostgroup_constraints`. */
  method Collect(n: Node) returns (all: seq<Constraint>)
    ensures all == Constraints(Leaves(n))
  {
    all := WalkHostgroups([], n);
    GatherAppends([], Leaves(n));
    assert [] + Constraints(Leaves(n)) == Constraints(Leaves(n));
  }

  /** One constraint on a row's groups; `gte` and `lte` are not looked at. */
  predicate Meets(rx: (string, string) -> bool, groups: set<string>, c: Constraint) {
    match c.op
    case Eq => c.value.One? ==> c.value.s in groups
    case In =>
      if c.value.Many? then exists i :: 0 <= i < |c.value.items| && c.value.items[i] in groups
      else c.value.One? ==> c.value.s in groups
    case Neq => c.value.One? ==> c.value.s !in groups
    case Regex => c.value.One? ==> exists g :: g in groups && rx(c.value.s, g)
    case other => true
  }

  /** `_row_matches_hostgroup_constraints`; a row without the column counts as in no group. */
  method RowMatches(rx: (string, string) -> bool, column: Option<set<string>>, cs: seq<Constraint>) returns (ok: bool)
    ensures ok <==> forall c :: c in cs ==> Meets(rx, if column.Some? then column.value else {}, c)
  {
    var groups := if column.Some? then column.value else {};
    for i := 0 to |cs|
      invariant forall c :: c in cs[..i] ==> Meets(rx, groups, c)
    {
      if !Meets(rx, groups, cs[i]) {
        assert cs[i] in cs;
        return false;
      }
      assert cs[..i + 1] == cs[..i] + [cs[i]];
    }
    assert cs[..|cs|] == cs;
    return true;
  }

  /** Without the column a row is dropped exactly when some constraint asks for a group. */
  lemma MissingColumnExactly(rx: (string, string) -> bool, cs: seq<Constraint>)
    requires forall c :: c in cs ==> if c.op == In then c.value.Many? else c.value.One?
    ensures (forall c :: c in cs ==> Meets(rx, {}, c)) <==> forall c :: c in cs ==> c.op !in {Eq, In, Regex}
  {
  }

  predicate MeetsAll(rx: (string, string) -> bool, ctx: Context, cs: seq<Constraint>, row: Row) {
    forall c :: c in cs ==> Meets(rx, GroupsOf(ctx, Hostgroup, row), c)
  }

  function Filter(rows: seq<Row>, keeps: Row -> bool): seq<Row> {
    if rows == [] then [] else (if keeps(rows[0]) then [rows[0]] else []) + Filter(rows[1..], keeps)
  }

  lemma FilterNext(kept: seq<Row>, rows: seq<Row>, i: nat, keeps: Row -> bool)
    requires i < |rows|
    ensures kept + Filter(rows[i..], keeps)
         == (if keeps(rows[i]) then kept + [rows[i]] else kept) + Filter(rows[i + 1..], keeps)
  {
    assert rows[i..][1..] == rows[i + 1..];
  }

  /** The re-check in `thruk_problems`: the rows that pass, in order, and how many were dropped. */
  method Recheck(rx: (string, string) -> bool, ctx: Context, rows: seq<Row>, cs: seq<Constraint>)
    returns (kept: seq<Row>, leaked: nat)
    ensures kept == Filter(rows, row => MeetsAll(rx, ctx, cs, row))
    ensures leaked == |rows| - |kept|
  {
    ghost var keeps := row => MeetsAll(rx, ctx, cs, row);
    kept := [];
    for i := 0 to |rows|
      invariant kept + Filter(rows[i..], keeps) == Filter(rows, keeps)
      invariant |kept| <= i
    {
      FilterNext(kept, rows, i, keeps);
      var ok := RowMatches(rx, Some(GroupsOf(ctx, Hostgroup, rows[i])), cs);
      if ok {
        kept := kept + [rows[i]];
      }
    }
    assert rows[|rows|..] == [] && kept + [] == kept;
    leaked := |rows| - |kept|;
  }

  // ---- The check repairs both faults -----------------------------------------------------------------------

  predicate IsGroupKey(k: Key) {
    k.column.GroupsCol? || k.column.HostGroupsCol?
  }

  /** The parameters that do not ask for groups: the ones every backend honours. */
  function OtherParams(params: Params): Params {
    map k | k in params && !IsGroupKey(k) :: params[k]
  }

  function Side(ctx: Context, b: Both): Params {
    if ctx == Services then b.service else b.host
  }

  function SideKey(ctx: Context, k: Key): Key {
    if ctx == Services then ServiceKey(k) else k
  }

  /** A backend between honest and leaking: it returns every row that meets all parameters, and only rows
      that meet those that are not about groups. */
  ghost predicate Answers(t: Thruk, ctx: Context, params: Params, data: seq<Row>, returned: Row -> bool) {
    forall row :: row in data ==>
      && (ParamsHold(t, ctx, params, row) ==> returned(row))
      && (returned(row) ==> ParamsHold(t, ctx, OtherParams(params), row))
  }

  ghost predicate MeetsGroupLeaves(t: Thruk, ctx: Context, leaves: seq<Node>, row: Row) {
    forall l :: l in leaves && l.Leaf? && l.field == Hostgroup ==> Holds(t, ctx, l, row)
  }

  /** The constraints collected say what the leaves say. */
  lemma {:induction false} ConstraintsMean(t: Thruk, ctx: Context, leaves: seq<Node>, row: Row)
    requires forall l :: l in leaves ==> l.Leaf? && WellFormed(l) && !(l.field == Hostgroup && l.op == Gte)
    ensures MeetsAll(t.rx, ctx, Constraints(leaves), row) <==> MeetsGroupLeaves(t, ctx, leaves, row)
  {
    if leaves == [] {
    } else {
      var l := leaves[0];
      ConstraintsMean(t, ctx, leaves[1..], row);
      assert leaves == [l] + leaves[1..];
      if l.field == Hostgroup {
        ConstraintMeans(t, ctx, l, row);
        var c := Constraint(l.op, l.value);
        assert Constraints(leaves) == [c] + Constraints(leaves[1..]);
        assert c in Constraints(leaves);
      } else {
        assert Constraints(leaves) == Constraints(leaves[1..]);
      }
    }
  }

  lemma ConstraintMeans(t: Thruk, ctx: Context, l: Node, row: Row)
    requires l.Leaf? && WellFormed(l) && l.field == Hostgroup && l.op != Gte
    ensures Meets(t.rx, GroupsOf(ctx, Hostgroup, row), Constraint(l.op, l.value)) <==> Holds(t, ctx, l, row)
  {
    if l.op == In {
      forall i | 0 <= i < |l.value.items|
        ensures var s := l.value.items[i];
          s in GroupsOf(ctx, Hostgroup, row) <==> OneHolds(t, ctx, Hostgroup, Eq, s, row)
      {
      }
    }
  }

  /** A leaf puts a value under a key of a side. */
  predicate Puts(ctx: Context, l: Node, k: Key, p: Param) {
    Entry(l).Some? && SideKey(ctx, Entry(l).value.0) == k && Entry(l).value.1 == p
  }

  /** Every entry was put there by a leaf, or was there before. */
  lemma {:induction false} EntriesWereApplied(ctx: Context, b: Both, leaves: seq<Node>, k: Key)
    requires k in Side(ctx, ApplyAll(b, leaves))
    ensures (k in Side(ctx, b) && Side(ctx, ApplyAll(b, leaves))[k] == Side(ctx, b)[k]) ||
      exists l :: l in leaves && Puts(ctx, l, k, Side(ctx, ApplyAll(b, leaves))[k])
    decreases |leaves|
  {
    if leaves == [] {
    } else {
      var first, v := leaves[0], Side(ctx, ApplyAll(b, leaves))[k];
      EntriesWereApplied(ctx, Apply(b, first), leaves[1..], k);
      assert leaves == [first] + leaves[1..] && first in leaves;
      if !exists l :: l in leaves[1..] && Puts(ctx, l, k, v) {
        assert k in Side(ctx, Apply(b, first)) && Side(ctx, Apply(b, first))[k] == v;
        assert Puts(ctx, first, k, v) || (k in Side(ctx, b) && Side(ctx, b)[k] == v);
      }
    }
  }

  lemma EntryComesFrom(ctx: Context, leaves: seq<Node>, k: Key) returns (l: Node)
    requires k in Side(ctx, ApplyAll(NONE, leaves))
    ensures l in leaves && Entry(l).Some? && SideKey(ctx, Entry(l).value.0) == k
    ensures Entry(l).value.1 == Side(ctx, ApplyAll(NONE, leaves))[k]
  {
    EntriesWereApplied(ctx, NONE, leaves, k);
    l :| l in leaves && Puts(ctx, l, k, Side(ctx, ApplyAll(NONE, leaves))[k]);
  }

  lemma GroupEntryHolds(t: Thruk, ctx: Context, l: Node, row: Row)
    requires l.Leaf? && WellFormed(l) && Entry(l).Some? && IsGroupKey(Entry(l).value.0)
    requires Holds(t, ctx, l, row)
    ensures ParamHolds(t, ctx, SideKey(ctx, Entry(l).value.0), Entry(l).value.1, row)
  {
    if l.op == In {
      var i :| 0 <= i < |l.value.items| && OneHolds(t, ctx, Hostgroup, Eq, l.value.items[i], row);
    }
  }

  /** A row that meets every group leaf meets every group parameter. */
  lemma GroupLeavesThenParams(t: Thruk, ctx: Context, leaves: seq<Node>, row: Row, k: Key)
    requires forall l :: l in leaves ==> l.Leaf? && WellFormed(l)
    requires MeetsGroupLeaves(t, ctx, leaves, row) && k in Side(ctx, ApplyAll(NONE, leaves)) && IsGroupKey(k)
    ensures ParamHolds(t, ctx, k, Side(ctx, ApplyAll(NONE, leaves))[k], row)
  {
    var l := EntryComesFrom(ctx, leaves, k);
    GroupEntryHolds(t, ctx, l, row);
  }

  lemma {:induction false} FilterTwice(rows: seq<Row>, first: Row -> bool, second: Row -> bool, both: Row -> bool)
    requires forall r :: r in rows ==> (both(r) <==> first(r) && second(r))
    ensures Filter(Filter(rows, first), second) == Filter(rows, both)
  {
    if rows == [] {
    } else {
      FilterTwice(rows[1..], first, second, both);
      assert rows[0] in rows;
      if first(rows[0]) {
        assert Filter(rows, first) == [rows[0]] + Filter(rows[1..], first);
        assert Filter(rows, first)[1..] == Filter(rows[1..], first);
      } else {
        assert Filter(rows, first) == Filter(rows[1..], first);
        assert Filter(rows, both) == Filter(rows[1..], both);
      }
    }
  }

  /** What is sent and checked for one row: it is returned and passes the check exactly when it meets the
      other parameters and every group leaf. */
  lemma ReturnedAndChecked(t: Thruk, ctx: Context, base: Params, leaves: seq<Node>, data: seq<Row>,
                           returned: Row -> bool, row: Row)
    requires forall l :: l in leaves ==> l.Leaf? && WellFormed(l) && !(l.field == Hostgroup && l.op == Gte)
    requires (forall k :: k in base ==> !IsGroupKey(k)) && row in data
    requires Answers(t, ctx, base + Side(ctx, ApplyAll(NONE, leaves)), data, returned)
    ensures returned(row) && MeetsAll(t.rx, ctx, Constraints(leaves), row) <==>
      && ParamsHold(t, ctx, OtherParams(base + Side(ctx, ApplyAll(NONE, leaves))), row)
      && MeetsGroupLeaves(t, ctx, leaves, row)
  {
    var extra := Side(ctx, ApplyAll(NONE, leaves));
    var params := base + extra;
    ConstraintsMean(t, ctx, leaves, row);
    if ParamsHold(t, ctx, OtherParams(params), row) && MeetsGroupLeaves(t, ctx, leaves, row) {
      forall k | k in params ensures ParamHolds(t, ctx, k, params[k], row) {
        if IsGroupKey(k) {
          GroupLeavesThenParams(t, ctx, leaves, row, k);
        } else {
          assert k in OtherParams(params);
        }
      }
    }
  }

  // ---- The tool ----------------------------------------------------------------------------------------------

  datatype Report = Refused | Report(hosts: seq<Row>, services: seq<Row>)

  /** The rows shown of those a server returned: checked only if the filter names host groups. */
  function Kept(rx: (string, string) -> bool, ctx: Context, n: Node, rows: seq<Row>): seq<Row> {
    var cs := Constraints(Leaves(n));
    if cs == [] then rows else Filter(rows, row => MeetsAll(rx, ctx, cs, row))
  }

  /** The tool's own condition on the state: `state = 1` for hosts, `state[gte] = 1` for services. */
  function OwnState(ctx: Context): BracketOp {
    if ctx == Services then GteOp else Plain
  }

  function OwnParams(ctx: Context): Params {
    map[Key(StateCol, OwnState(ctx)) := StateParam(Code(1))]
  }

  /** The parameters sent: the filter's entries update the tool's own. */
  function Sent(ctx: Context, n: Node): Params {
    OwnParams(ctx) + Side(ctx, Compiled(n))
  }

  /** `thruk_problems` with a filter: both dictionaries update the tool's own parameters, and both answers are
      checked. */
  method ThrukProblems(rx: (string, string) -> bool, compiles: string -> bool, n: Node,
                       hosts: Params -> seq<Row>, services: Params -> seq<Row>) returns (r: Report)
    ensures r == if !Valid(n, {State, Hostgroup, CustomVar, HostCustomVar}, compiles, 0) || Rejected(n)
                 then Refused
                 else Report(Kept(rx, Hosts, n, hosts(Sent(Hosts, n))),
                             Kept(rx, Services, n, services(Sent(Services, n))))
  {
    if !Valid(n, FIELDS_PROBLEMS, compiles, 0) {
      return Refused;
    }
    var extra := CompileFilterProblems(n);
    if extra.FilterError? {
      return Refused;
    }
    var h, s := hosts(OwnParams(Hosts) + extra.value.host), services(OwnParams(Services) + extra.value.service);
    var cs := Collect(n);
    if cs != [] {
      var leakedHosts, leakedServices;
      h, leakedHosts := Recheck(rx, Hosts, h, cs);
      s, leakedServices := Recheck(rx, Services, s, cs);
    }
    return Report(h, s);
  }

  /** What a filter says about host groups: the tree without its leaves on other fields. */
  function GroupPart(n: Node): Option<Node> {
    Prune({State, CustomVar, HostCustomVar}, n)
  }

  lemma AcceptedLeaf(compiles: string -> bool, n: Node, l: Node)
    requires Valid(n, FIELDS_PROBLEMS, compiles, 0) && l in Leaves(n)
    ensures l.Leaf? && (IsOn({State, CustomVar, HostCustomVar}, l) <==> l.field != Hostgroup)
  {
    LeavesAreValid(n, FIELDS_PROBLEMS, compiles, 0, l);
  }

  lemma AllLeavesHold(t: Thruk, ctx: Context, n: Node, leaves: seq<Node>, row: Row)
    requires !HasOr(n) && Leaves(n) == leaves
    ensures Holds(t, ctx, n, row) <==> AllHold(t, ctx, leaves, row)
  {
    AndTreeIsItsLeaves(t, ctx, n, row);
  }

  /** On an accepted tree without OR, the group part holds when every host group leaf does. */
  lemma GroupPartIsItsLeaves(t: Thruk, ctx: Context, compiles: string -> bool, n: Node, row: Row)
    requires Valid(n, FIELDS_PROBLEMS, compiles, 0) && !HasOr(n)
    ensures HoldsIfAny(t, ctx, GroupPart(n), row) <==> MeetsGroupLeaves(t, ctx, Leaves(n), row)
  {
    var fields := {State, CustomVar, HostCustomVar};
    var kept := Without(fields, Leaves(n));
    LeavesLeftExactly(fields, n);
    PruneKeepsNoOr(fields, n);
    if GroupPart(n).Some? {
      AllLeavesHold(t, ctx, GroupPart(n).value, kept, row);
    } else {
      assert kept == [];
    }
    assert HoldsIfAny(t, ctx, GroupPart(n), row) <==> AllHold(t, ctx, kept, row);
    forall l ensures l in kept <==> l in Leaves(n) && l.Leaf? && l.field == Hostgroup {
      WithoutExactly(fields, Leaves(n), l);
      if l in Leaves(n) {
        AcceptedLeaf(compiles, n, l);
      }
    }
  }

  ghost predicate NoGte(n: Node) {
    forall l :: l in Leaves(n) && l.Leaf? && l.field == Hostgroup ==> l.op != Gte
  }

  /** The rows shown are, in order, exactly the data's rows that meet the other parameters and the filter's host
      group part, whatever keys collided and whatever group parameters a backend ignored. */
  lemma RecheckRepairs(t: Thruk, ctx: Context, compiles: string -> bool, n: Node, base: Params, data: seq<Row>,
                       returned: Row -> bool, meant: Row -> bool)
    requires Valid(n, FIELDS_PROBLEMS, compiles, 0) && !Rejected(n) && NoGte(n)
    requires forall k :: k in base ==> !IsGroupKey(k)
    requires Answers(t, ctx, base + Side(ctx, Compiled(n)), data, returned)
    requires forall row :: row in data ==> (meant(row) <==>
      ParamsHold(t, ctx, OtherParams(base + Side(ctx, Compiled(n))), row) && HoldsIfAny(t, ctx, GroupPart(n), row))
    ensures Kept(t.rx, ctx, n, Filter(data, returned)) == Filter(data, meant)
  {
    var leaves := Leaves(n);
    var passes := row => MeetsAll(t.rx, ctx, Constraints(leaves), row);
    RejectedExactly(n);
    forall l | l in leaves ensures l.Leaf? && WellFormed(l) && !(l.field == Hostgroup && l.op == Gte) {
      LeavesAreValid(n, FIELDS_PROBLEMS, compiles, 0, l);
    }
    forall row | row in data ensures meant(row) <==> returned(row) && passes(row) {
      ReturnedAndChecked(t, ctx, base, leaves, data, returned, row);
      GroupPartIsItsLeaves(t, ctx, compiles, n, row);
    }
    FilterTwice(data, returned, passes, meant);
    if Constraints(leaves) == [] {
      FilterAll(Filter(data, returned), passes);
    }
  }

  lemma {:induction false} FilterAll(rows: seq<Row>, keeps: Row -> bool)
    requires forall r :: r in rows ==> keeps(r)
    ensures Filter(rows, keeps) == rows
  {
    if rows == [] {
    } else {
      FilterAll(rows[1..], keeps);
    }
  }

  /** `gte` on a host group is not checked again: of two, the overwritten one is lost. */
  lemma GteIsNotRechecked(t: Thruk)
    ensures var a, b := Leaf(Hostgroup, Gte, One("A")), Leaf(Hostgroup, Gte, One("B"));
      var row := Row(map[], 1, 0, {"B"}, {}, map[], map[]);
      && ParamsHold(t, Hosts, ApplyAll(NONE, [a, b]).host, row) && MeetsAll(t.rx, Hosts, Constraints([a, b]), row)
      && !MeetsGroupLeaves(t, Hosts, [a, b], row)
  {
    var a, b := Leaf(Hostgroup, Gte, One("A")), Leaf(Hostgroup, Gte, One("B"));
    var row := Row(map[], 1, 0, {"B"}, {}, map[], map[]);
    assert [a, b][1..] == [b] && [b][1..] == [];
    var sent := Apply(Apply(NONE, a), b);
    assert ApplyAll(sent, []) == sent && ApplyAll(Apply(NONE, a), [b]) == sent;
    assert ApplyAll(NONE, [a, b]) == sent;
    assert a in [a, b] && !Holds(t, Hosts, a, row);
    forall c | c in Constraints([a, b]) ensures c.op == Gte {
      assert Constraints([a, b]) == [Constraint(Gte, One("A"))] + Constraints([b]);
      assert Constraints([b]) == [Constraint(Gte, One("B"))] + Constraints([]);
    }
  }
}
