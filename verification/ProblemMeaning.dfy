/** What the two dictionaries of `thruk_problems` (filters.py, inventory.py) mean, and so which rows it shows.

    A custom variable is asked for on the host, whichever field names it and whatever its operator; a state
    is read with the names of hosts and of services on both sides, and sent as a number. */
module ProblemMeaning {
  import opened Basics
  import opened FilterTree
  import opened ThrukQuery
  import opened LeafMeaning
  import opened ParamDictionary
  import opened FilterMeaning
  import opened Pruning
  import opened Problems
  import StateNames
  import Texts

  // ---- The leaf a leaf is sent as ------------------------------------------------------------------------

  /** The number a state's name stands for; a text of digits stands for itself. */
  function NamedNumber(s: string): Option<int> {
    if IsDigits(s) then None else StateCode(Hosts, s)
  }

  /** The leaf asked for. */
  function Meant(ctx: Context, l: Node): Node {
    if l.Group? then l
    else if IsCv(l.field) then Leaf(if ctx == Services then HostCustomVar else CustomVar, Eq, l.value)
    else if l.field == State && l.value.One? && NamedNumber(l.value.s).Some? then
      Leaf(State, l.op, One(Texts.PrintInt(NamedNumber(l.value.s).value)))
    else l
  }

  /** A leaf of an accepted filter. */
  predicate IsAccepted(l: Node) {
    && l.Leaf? && l.field in {State, Hostgroup, CustomVar, HostCustomVar} && ShapeOk(l.field, l.op, l.value)
    && !(l.field == State && l.op == In)
  }

  lemma PrintedNumberIsCode(ctx: Context, n: int)
    requires n >= 0
    ensures StateCode(ctx, Texts.PrintInt(n)) == Some(n)
  {
    var s := Texts.PrintInt(n);
    Texts.PrintNatDigits(n);
    LowerDigits(s);
    DigitStates(s);
  }

  /** The names of host and service states, in any case, are sent as these numbers. */
  lemma SentNumber(s: string, n: int)
    requires StateNames.NamesHostState(s, n) || StateNames.NamesServiceState(s, n)
    ensures ProblemState(s) == Code(n) && 0 <= n <= 3
    ensures !IsDigits(s) ==> NamedNumber(s) == Some(n)
  {
    StateNames.HostNumber(s, n);
    StateNames.ServiceNumber(s, n);
  }

  lemma StateIsSent(s: string)
    ensures match NamedNumber(s)
      case Some(n) => 0 <= n <= 3 && ProblemState(s) == Code(n)
      case None => ArgText(ProblemState(s)) == s
    ensures ArgCode(ProblemState(s)) == StateCode(Hosts, s)
  {
    ProblemStateIsCode(s);
    if IsDigits(s) {
      LowerDigits(s);
      DigitStates(s);
      if ProblemState(s).Code? {
        OneDigitPrinted(s);
      }
    }
  }

  lemma OneDigitPrinted(s: string)
    requires |s| == 1 && IsDigits(s)
    ensures Texts.PrintInt(DigitsValue(s)) == s
  {
    OneDigit(s);
    var n := DigitsValue(s);
    assert n < 10 && Texts.PrintNat(n) == [] + [Texts.PrintDigit(n % 10)];
  }

  /** A state parameter says what the leaf sent says. */
  lemma StateEntryMeans(t: Thruk, ctx: Context, l: Node, row: Row)
    requires IsAccepted(l) && l.field == State
    ensures ParamHolds(t, ctx, Entry(l).value.0, Entry(l).value.1, row) <==> Holds(t, ctx, Meant(ctx, l), row)
  {
    var s := l.value.s;
    StateIsSent(s);
    if NamedNumber(s).Some? {
      PrintedNumberIsCode(ctx, NamedNumber(s).value);
    } else {
      UnnamedState(ctx, s);
    }
  }

  /** What is no name has the same number, or none, everywhere. */
  lemma UnnamedState(ctx: Context, s: string)
    requires NamedNumber(s).None?
    ensures StateCode(ctx, s) == StateCode(Hosts, s)
  {
    if IsDigits(s) {
      LowerDigits(s);
      DigitStates(s);
    }
  }

  lemma VariableEntryMeans(t: Thruk, ctx: Context, l: Node, row: Row)
    requires IsAccepted(l) && IsCv(l.field)
    ensures ParamHolds(t, ctx, SideKey(ctx, Entry(l).value.0), Entry(l).value.1, row) <==>
      Holds(t, ctx, Meant(ctx, l), row)
  {
    UpperHost(Upper(l.value.name));
  }

  lemma GroupEntryMeans(t: Thruk, ctx: Context, l: Node, row: Row)
    requires IsAccepted(l) && l.field == Hostgroup
    ensures ParamHolds(t, ctx, SideKey(ctx, Entry(l).value.0), Entry(l).value.1, row) <==>
      Holds(t, ctx, Meant(ctx, l), row)
  {
    if l.op == In {
      forall i | 0 <= i < |l.value.items|
        ensures l.value.items[i] in GroupsOf(ctx, Hostgroup, row) <==>
          OneHolds(t, ctx, Hostgroup, Eq, l.value.items[i], row)
      {
      }
    }
  }

  /** The parameter of a leaf says, on either side, what the leaf it is sent as says. */
  lemma EntryMeans(t: Thruk, ctx: Context, l: Node, row: Row)
    requires IsAccepted(l)
    ensures Entry(l).Some?
    ensures ParamHolds(t, ctx, SideKey(ctx, Entry(l).value.0), Entry(l).value.1, row) <==>
      Holds(t, ctx, Meant(ctx, l), row)
  {
    if l.field == State {
      StateEntryMeans(t, ctx, l, row);
    } else if IsCv(l.field) {
      VariableEntryMeans(t, ctx, l, row);
    } else {
      GroupEntryMeans(t, ctx, l, row);
    }
  }

  // ---- Which leaves are asked for ------------------------------------------------------------------------------

  /** Two leaves that ask the same question: of one variable, of the groups (to be in or not to be), or of the state
      with one operator. The later one is asked. */
  predicate AsksSame(a: Node, b: Node) {
    && a.Leaf? && b.Leaf?
    && if IsCv(a.field) then
         IsCv(b.field) && a.value.Variable? && b.value.Variable? && Upper(a.value.name) == Upper(b.value.name)
       else
         || (a.field == Hostgroup && b.field == Hostgroup && (a.op == Neq <==> b.op == Neq))
         || (a.field == State && b.field == State && a.op == b.op)
  }

  ghost predicate AllAccepted(leaves: seq<Node>) {
    forall l :: l in leaves ==> IsAccepted(l)
  }

  /** No later leaf asks the same. */
  ghost predicate Survives(leaves: seq<Node>, i: int) {
    0 <= i < |leaves| && forall j :: i < j < |leaves| ==> !AsksSame(leaves[i], leaves[j])
  }

  function KeyOfLeaf(ctx: Context, l: Node): Key
    requires IsAccepted(l)
  {
    SideKey(ctx, Entry(l).value.0)
  }

  lemma SameKeyExactly(ctx: Context, a: Node, b: Node)
    requires IsAccepted(a) && IsAccepted(b)
    ensures KeyOfLeaf(ctx, a) == KeyOfLeaf(ctx, b) <==> AsksSame(a, b)
  {
    ServiceKeysDiffer(Entry(a).value.0, Entry(b).value.0);
  }

  lemma ServiceKeysDiffer(j: Key, k: Key)
    requires j.column != HostGroupsCol && k.column != HostGroupsCol
    ensures ServiceKey(j) == ServiceKey(k) <==> j == k
  {
    if ServiceKey(j) == ServiceKey(k) {
      ServiceKeyIsInjective(j, k);
    }
  }

  lemma ApplyOne(ctx: Context, b: Both, l: Node)
    requires IsAccepted(l)
    ensures Side(ctx, Apply(b, l)) == Side(ctx, b)[KeyOfLeaf(ctx, l) := Entry(l).value.1]
  {
  }

  /** A key no leaf has stays as it was. */
  lemma {:induction false} OtherKeyStays(ctx: Context, b: Both, leaves: seq<Node>, k: Key)
    requires AllAccepted(leaves) && k in Side(ctx, b)
    requires forall l :: l in leaves ==> KeyOfLeaf(ctx, l) != k
    ensures k in Side(ctx, ApplyAll(b, leaves)) && Side(ctx, ApplyAll(b, leaves))[k] == Side(ctx, b)[k]
    decreases |leaves|
  {
    if leaves == [] {
    } else {
      assert leaves[0] in leaves;
      ApplyOne(ctx, b, leaves[0]);
      OtherKeyStays(ctx, Apply(b, leaves[0]), leaves[1..], k);
    }
  }

  lemma {:induction false} SurvivorIsSent(ctx: Context, b: Both, leaves: seq<Node>, i: nat)
    requires AllAccepted(leaves) && Survives(leaves, i)
    ensures var k := KeyOfLeaf(ctx, leaves[i]);
      k in Side(ctx, ApplyAll(b, leaves)) && Side(ctx, ApplyAll(b, leaves))[k] == Entry(leaves[i]).value.1
    decreases |leaves|
  {
    var l, rest := leaves[0], leaves[1..];
    assert l in leaves;
    if i == 0 {
      forall m | m in rest ensures KeyOfLeaf(ctx, m) != KeyOfLeaf(ctx, l) {
        SameKeyExactly(ctx, l, m);
      }
      ApplyOne(ctx, b, l);
      OtherKeyStays(ctx, Apply(b, l), rest, KeyOfLeaf(ctx, l));
    } else {
      SurvivorIsSent(ctx, Apply(b, l), rest, i - 1);
    }
  }

  /** The last leaf that asks what `l` asks. */
  lemma {:induction false} LastAsksToo(leaves: seq<Node>, l: Node) returns (i: nat)
    requires AllAccepted(leaves) && l in leaves
    ensures Survives(leaves, i) && AsksSame(leaves[i], l)
  {
    assert leaves == [leaves[0]] + leaves[1..];
    if m :| m in leaves[1..] && AsksSame(m, l) {
      var j := LastAsksToo(leaves[1..], m);
      i := j + 1;
    } else {
      assert l == leaves[0];
      i := 0;
      forall j | 0 < j < |leaves| ensures !AsksSame(leaves[0], leaves[j]) {
        assert leaves[j] in leaves[1..];
      }
    }
  }

  lemma EntryIsSurvivor(ctx: Context, leaves: seq<Node>, k: Key) returns (i: nat)
    requires AllAccepted(leaves) && k in Side(ctx, ApplyAll(NONE, leaves))
    ensures Survives(leaves, i) && KeyOfLeaf(ctx, leaves[i]) == k
    ensures Entry(leaves[i]).value.1 == Side(ctx, ApplyAll(NONE, leaves))[k]
  {
    var l := EntryComesFrom(ctx, leaves, k);
    i := LastAsksToo(leaves, l);
    SameKeyExactly(ctx, leaves[i], l);
    SurvivorIsSent(ctx, NONE, leaves, i);
  }

  /** If no later leaf replaces it, the leaf it is sent as holds. */
  ghost predicate LeafAsked(t: Thruk, ctx: Context, leaves: seq<Node>, i: int, row: Row) {
    Survives(leaves, i) ==> Holds(t, ctx, Meant(ctx, leaves[i]), row)
  }

  lemma AcceptedLeaves(compiles: string -> bool, n: Node)
    requires Valid(n, FIELDS_PROBLEMS, compiles, 0) && !Rejected(n)
    ensures AllAccepted(Leaves(n)) && !HasOr(n)
  {
    RejectedExactly(n);
    forall l | l in Leaves(n) ensures IsAccepted(l) {
      LeavesAreValid(n, FIELDS_PROBLEMS, compiles, 0, l);
    }
  }

  /** Every leaf that no later one has replaced is asked for. */
  ghost predicate AllAsked(t: Thruk, ctx: Context, leaves: seq<Node>, row: Row) {
    forall i :: LeafAsked(t, ctx, leaves, i, row)
  }

  /** What either dictionary asks for, exactly: every leaf, as the leaf it is sent as, that no later one that asks
      the same has replaced. */
  lemma CompiledMeansExactly(t: Thruk, ctx: Context, compiles: string -> bool, n: Node, row: Row)
    requires Valid(n, FIELDS_PROBLEMS, compiles, 0) && !Rejected(n)
    ensures ParamsHold(t, ctx, Side(ctx, Compiled(n)), row) <==> AllAsked(t, ctx, Leaves(n), row)
  {
    AcceptedLeaves(compiles, n);
    LeavesAskedExactly(t, ctx, Leaves(n), row);
  }

  lemma LeavesAskedExactly(t: Thruk, ctx: Context, leaves: seq<Node>, row: Row)
    requires AllAccepted(leaves)
    ensures ParamsHold(t, ctx, Side(ctx, ApplyAll(NONE, leaves)), row) <==> AllAsked(t, ctx, leaves, row)
  {
    var params := Side(ctx, ApplyAll(NONE, leaves));
    if ParamsHold(t, ctx, params, row) {
      forall i ensures LeafAsked(t, ctx, leaves, i, row) {
        if Survives(leaves, i) {
          SurvivorIsSent(ctx, NONE, leaves, i);
          EntryMeans(t, ctx, leaves[i], row);
        }
      }
    }
    if AllAsked(t, ctx, leaves, row) {
      forall k | k in params ensures ParamHolds(t, ctx, k, params[k], row) {
        var i := EntryIsSurvivor(ctx, leaves, k);
        assert LeafAsked(t, ctx, leaves, i, row);
        EntryMeans(t, ctx, leaves[i], row);
      }
    }
  }

  // ---- Without a clash -------------------------------------------------------------------------------------------

  predicate WantSame(a: Node, b: Node)
    requires AsksSame(a, b)
  {
    if IsCv(a.field) then a.value.val == b.value.val else a.value == b.value
  }

  /** Leaves that ask the same want the same. */
  ghost predicate NoTwoAnswers(leaves: seq<Node>) {
    forall a, b :: a in leaves && b in leaves && AsksSame(a, b) ==> WantSame(a, b)
  }

  lemma SameAnswerSameMeaning(t: Thruk, ctx: Context, a: Node, b: Node, row: Row)
    requires IsAccepted(a) && IsAccepted(b) && AsksSame(a, b) && WantSame(a, b)
    ensures Holds(t, ctx, Meant(ctx, a), row) <==> Holds(t, ctx, Meant(ctx, b), row)
  {
  }

  /** The tree asked for. */
  function MeantTree(ctx: Context, n: Node): Node
    decreases n, 1
  {
    match n
    case Leaf(_, _, _) => Meant(ctx, n)
    case Group(isOr, conds) => Group(isOr, MeantTrees(ctx, conds))
  }

  function MeantTrees(ctx: Context, conds: seq<Node>): (r: seq<Node>)
    ensures |r| == |conds|
    decreases conds, 0
  {
    if conds == [] then [] else [MeantTree(ctx, conds[0])] + MeantTrees(ctx, conds[1..])
  }

  lemma {:induction false} MeantTreeIsItsLeaves(t: Thruk, ctx: Context, n: Node, row: Row)
    requires !HasOr(n)
    ensures Holds(t, ctx, MeantTree(ctx, n), row) <==>
      forall l :: l in Leaves(n) ==> Holds(t, ctx, Meant(ctx, l), row)
    decreases n, 1
  {
    if n.Leaf? {
    } else {
      MeantTreesAreTheirLeaves(t, ctx, n.conds, row);
      assert Holds(t, ctx, MeantTree(ctx, n), row) <==> AllHold(t, ctx, MeantTrees(ctx, n.conds), row);
    }
  }

  lemma {:induction false} MeantTreesAreTheirLeaves(t: Thruk, ctx: Context, conds: seq<Node>, row: Row)
    requires forall c :: c in conds ==> !HasOr(c)
    ensures AllHold(t, ctx, MeantTrees(ctx, conds), row) <==>
      forall l :: l in LeavesOf(conds) ==> Holds(t, ctx, Meant(ctx, l), row)
    decreases conds, 0
  {
    if conds == [] {
    } else {
      MeantTreeIsItsLeaves(t, ctx, conds[0], row);
      MeantTreesAreTheirLeaves(t, ctx, conds[1..], row);
      assert MeantTrees(ctx, conds) == [MeantTree(ctx, conds[0])] + MeantTrees(ctx, conds[1..]);
      assert forall m :: m in MeantTrees(ctx, conds) <==>
        m == MeantTree(ctx, conds[0]) || m in MeantTrees(ctx, conds[1..]);
    }
  }

  lemma AllAskedWithoutClash(t: Thruk, ctx: Context, leaves: seq<Node>, row: Row)
    requires AllAccepted(leaves) && NoTwoAnswers(leaves)
    ensures AllAsked(t, ctx, leaves, row) <==>
      forall l :: l in leaves ==> Holds(t, ctx, Meant(ctx, l), row)
  {
    if AllAsked(t, ctx, leaves, row) {
      forall l | l in leaves ensures Holds(t, ctx, Meant(ctx, l), row) {
        var i := LastAsksToo(leaves, l);
        assert LeafAsked(t, ctx, leaves, i, row) && leaves[i] in leaves;
        SameAnswerSameMeaning(t, ctx, leaves[i], l, row);
      }
    }
  }

  /** Where no two leaves that ask the same want different things, either dictionary asks for exactly the tree. */
  lemma CompiledMeansTheTree(t: Thruk, ctx: Context, compiles: string -> bool, n: Node, row: Row)
    requires Valid(n, FIELDS_PROBLEMS, compiles, 0) && !Rejected(n) && NoTwoAnswers(Leaves(n))
    ensures ParamsHold(t, ctx, Side(ctx, Compiled(n)), row) <==> Holds(t, ctx, MeantTree(ctx, n), row)
  {
    AcceptedLeaves(compiles, n);
    LeavesAskedExactly(t, ctx, Leaves(n), row);
    AllAskedWithoutClash(t, ctx, Leaves(n), row);
    MeantTreeIsItsLeaves(t, ctx, n, row);
  }

  // ---- When a leaf is sent as it is --------------------------------------------------------------------------------

  /** A custom variable asked for with `eq` under the field of this side; a state that is no name, or a name this
      side knows and no pattern; any host group. */
  predicate SentAsIs(ctx: Context, l: Node)
    requires IsAccepted(l)
  {
    if IsCv(l.field) then l.op == Eq && (l.field == HostCustomVar <==> ctx == Services)
    else if l.field == State then
      NamedNumber(l.value.s).None? || (l.op != Regex && StateCode(ctx, l.value.s) == NamedNumber(l.value.s))
    else true
  }

  ghost predicate Tells(t: Thruk, ctx: Context, l: Node, row: Row) {
    Holds(t, ctx, Meant(ctx, l), row) != Holds(t, ctx, l, row)
  }

  lemma VariableToldApart(ctx: Context, l: Node) returns (t: Thruk, row: Row)
    requires IsAccepted(l) && IsCv(l.field) && !SentAsIs(ctx, l)
    ensures Tells(t, ctx, l, row)
  {
    t := Thruk((a, b) => false, (a, b) => false, s => 0, (w, i) => false);
    var name, val := Upper(l.value.name), l.value.val;
    if (l.field == HostCustomVar) == (ctx == Services) {
      row := Row(map[], 0, 0, {}, {}, map[name := val], map[name := val]);
    } else if ctx == Services {
      row := Row(map[], 0, 0, {}, {}, map[name := val + "x"], map[name := val]);
      assert l.op == Neq ==> val != val + "x";
      if l.op == Neq {
        row := Row(map[], 0, 0, {}, {}, map[name := val], map[name := val]);
      }
    } else {
      row := Row(map[], 0, 0, {}, {}, map[name := val], map[name := if l.op == Neq then val else val + "x"]);
    }
  }

  lemma PatternToldApart(ctx: Context, l: Node) returns (t: Thruk, row: Row)
    requires IsAccepted(l) && l.field == State && l.op == Regex && NamedNumber(l.value.s).Some?
    ensures Tells(t, ctx, l, row)
  {
    var sent := SentPattern(l.value.s);
    t := Thruk((a, b) => false, (a, b) => false, x => 0, (w: Value, i: int) => w == One(sent));
    row := Row(map[], 0, 0, {}, {}, map[], map[]);
    assert Meant(ctx, l) == Leaf(State, Regex, One(sent));
    assert Holds(t, ctx, Meant(ctx, l), row) && !Holds(t, ctx, l, row);
  }

  /** A name is written in other characters than its number. */
  lemma SentPattern(s: string) returns (sent: string)
    requires NamedNumber(s).Some?
    ensures sent == Texts.PrintInt(NamedNumber(s).value) && sent != s
  {
    StateIsSent(s);
    sent := Texts.PrintInt(NamedNumber(s).value);
    Texts.PrintNatDigits(NamedNumber(s).value);
    assert IsDigits(sent);
  }

  lemma NameToldApart(ctx: Context, l: Node) returns (t: Thruk, row: Row)
    requires IsAccepted(l) && l.field == State && l.op != Regex
    requires NamedNumber(l.value.s).Some? && StateCode(ctx, l.value.s) != NamedNumber(l.value.s)
    ensures Tells(t, ctx, l, row)
  {
    var s := l.value.s;
    var n := NamedNumber(s).value;
    StateIsSent(s);
    PrintedNumberIsCode(ctx, n);
    assert StateCode(ctx, s).None?;
    t := Thruk((a, b) => false, (a, b) => false, x => 0, (w, i) => false);
    row := Row(map[], if l.op == Neq then n + 1 else n, 0, {}, {}, map[], map[]);
  }

  lemma SentAsItIs(t: Thruk, ctx: Context, l: Node, row: Row)
    requires IsAccepted(l) && SentAsIs(ctx, l)
    ensures Holds(t, ctx, Meant(ctx, l), row) <==> Holds(t, ctx, l, row)
  {
    if l.field == State && NamedNumber(l.value.s).Some? {
      StateIsSent(l.value.s);
      PrintedNumberIsCode(ctx, NamedNumber(l.value.s).value);
    }
  }

  /** The leaf sent means the leaf written, on every data set and whatever Thruk makes of texts, if and only if it is
      sent as it is. */
  lemma SentAsIsExactly(ctx: Context, l: Node)
    requires IsAccepted(l)
    ensures (forall t, row :: Holds(t, ctx, Meant(ctx, l), row) <==> Holds(t, ctx, l, row)) <==> SentAsIs(ctx, l)
  {
    if SentAsIs(ctx, l) {
      forall t, row ensures Holds(t, ctx, Meant(ctx, l), row) <==> Holds(t, ctx, l, row) {
        SentAsItIs(t, ctx, l, row);
      }
    } else if IsCv(l.field) {
      var t, row := VariableToldApart(ctx, l);
      assert Holds(t, ctx, Meant(ctx, l), row) != Holds(t, ctx, l, row);
    } else if l.op == Regex {
      var t, row := PatternToldApart(ctx, l);
      assert Holds(t, ctx, Meant(ctx, l), row) != Holds(t, ctx, l, row);
    } else {
      var t, row := NameToldApart(ctx, l);
      assert Holds(t, ctx, Meant(ctx, l), row) != Holds(t, ctx, l, row);
    }
  }

  /** A filter without a clash whose leaves are sent as they are is asked for as it is written. */
  lemma CompiledMeansTheFilter(t: Thruk, ctx: Context, compiles: string -> bool, n: Node, row: Row)
    requires Valid(n, FIELDS_PROBLEMS, compiles, 0) && !Rejected(n) && NoTwoAnswers(Leaves(n))
    requires forall l :: l in Leaves(n) && IsAccepted(l) ==> SentAsIs(ctx, l)
    ensures ParamsHold(t, ctx, Side(ctx, Compiled(n)), row) <==> Holds(t, ctx, n, row)
  {
    AcceptedLeaves(compiles, n);
    LeavesAskedExactly(t, ctx, Leaves(n), row);
    AllAskedWithoutClash(t, ctx, Leaves(n), row);
    AndTreeIsItsLeaves(t, ctx, n, row);
    forall l | l in Leaves(n) ensures Holds(t, ctx, Meant(ctx, l), row) <==> Holds(t, ctx, l, row) {
      SentAsItIs(t, ctx, l, row);
    }
  }

  // ---- The rows shown ------------------------------------------------------------------------------------------

  /** A state leaf with the operator of the tool's own condition, which it replaces. */
  ghost predicate ReplacesOwn(ctx: Context, leaves: seq<Node>) {
    exists l :: l in leaves && l.Leaf? && l.field == State && l.op == if ctx == Services then Gte else Eq
  }

  /** The tool's own condition: hosts that are DOWN, services that are not OK. */
  predicate IsOwnProblem(ctx: Context, row: Row) {
    if ctx == Services then row.state >= 1 else row.state == 1
  }

  /** Every leaf on a state or a variable that no later one has replaced. */
  ghost predicate OthersAsked(t: Thruk, ctx: Context, leaves: seq<Node>, row: Row) {
    forall i :: Survives(leaves, i) && leaves[i].Leaf? && leaves[i].field != Hostgroup ==>
      Holds(t, ctx, Meant(ctx, leaves[i]), row)
  }

  /** What a row must meet to be shown: the tool's own condition unless a leaf replaces it, every leaf on a state or a
      variable that no later one has replaced, and every host group leaf of the filter, replaced or not. */
  ghost predicate ShouldBeShown(t: Thruk, ctx: Context, n: Node, row: Row) {
    var leaves := Leaves(n);
    && (IsOwnProblem(ctx, row) || ReplacesOwn(ctx, leaves))
    && OthersAsked(t, ctx, leaves, row)
    && (forall l :: l in leaves && l.Leaf? && l.field == Hostgroup ==> Holds(t, ctx, l, row))
  }

  lemma OwnKeyExactly(ctx: Context, leaves: seq<Node>)
    requires AllAccepted(leaves)
    ensures Key(StateCol, OwnState(ctx)) in Side(ctx, ApplyAll(NONE, leaves)) <==> ReplacesOwn(ctx, leaves)
  {
    var k := Key(StateCol, OwnState(ctx));
    if k in Side(ctx, ApplyAll(NONE, leaves)) {
      var i := EntryIsSurvivor(ctx, leaves, k);
      assert leaves[i] in leaves;
    }
    if l :| l in leaves && l.Leaf? && l.field == State && l.op == if ctx == Services then Gte else Eq {
      var i := LastAsksToo(leaves, l);
      SameKeyExactly(ctx, leaves[i], l);
      SurvivorIsSent(ctx, NONE, leaves, i);
      assert KeyOfLeaf(ctx, l) == k;
    }
  }

  lemma GroupKeyExactly(ctx: Context, l: Node)
    requires IsAccepted(l)
    ensures IsGroupKey(KeyOfLeaf(ctx, l)) <==> l.field == Hostgroup
  {
  }

  lemma OwnParamHolds(t: Thruk, ctx: Context, row: Row)
    ensures ParamHolds(t, ctx, Key(StateCol, OwnState(ctx)), StateParam(Code(1)), row) <==> IsOwnProblem(ctx, row)
  {
  }

  lemma OthersAskedOf(t: Thruk, ctx: Context, n: Node, row: Row)
    requires AllAccepted(Leaves(n)) && ParamsHold(t, ctx, OtherParams(Sent(ctx, n)), row)
    ensures OthersAsked(t, ctx, Leaves(n), row)
  {
    var leaves, others := Leaves(n), OtherParams(Sent(ctx, n));
    forall i | Survives(leaves, i) && leaves[i].Leaf? && leaves[i].field != Hostgroup
      ensures Holds(t, ctx, Meant(ctx, leaves[i]), row)
    {
      SurvivorIsSent(ctx, NONE, leaves, i);
      GroupKeyExactly(ctx, leaves[i]);
      EntryMeans(t, ctx, leaves[i], row);
      assert KeyOfLeaf(ctx, leaves[i]) in others;
    }
  }

  lemma OtherParamAsked(t: Thruk, ctx: Context, leaves: seq<Node>, k: Key, row: Row)
    requires AllAccepted(leaves) && OthersAsked(t, ctx, leaves, row)
    requires k in Side(ctx, ApplyAll(NONE, leaves)) && !IsGroupKey(k)
    ensures ParamHolds(t, ctx, k, Side(ctx, ApplyAll(NONE, leaves))[k], row)
  {
    var i := EntryIsSurvivor(ctx, leaves, k);
    assert leaves[i] in leaves;
    GroupKeyExactly(ctx, leaves[i]);
    EntryMeans(t, ctx, leaves[i], row);
  }

  /** The parameters that are not about groups, told by the filter's leaves. */
  lemma OtherParamsMean(t: Thruk, ctx: Context, n: Node, row: Row)
    requires AllAccepted(Leaves(n))
    ensures ParamsHold(t, ctx, OtherParams(Sent(ctx, n)), row) <==>
      (IsOwnProblem(ctx, row) || ReplacesOwn(ctx, Leaves(n))) && OthersAsked(t, ctx, Leaves(n), row)
  {
    var leaves, others := Leaves(n), OtherParams(Sent(ctx, n));
    var own := Key(StateCol, OwnState(ctx));
    OwnKeyExactly(ctx, leaves);
    OwnParamHolds(t, ctx, row);
    if ParamsHold(t, ctx, others, row) {
      assert own in others;
      OthersAskedOf(t, ctx, n, row);
    }
    if (IsOwnProblem(ctx, row) || ReplacesOwn(ctx, leaves)) && OthersAsked(t, ctx, leaves, row) {
      forall k | k in others ensures ParamHolds(t, ctx, k, others[k], row) {
        if k in Side(ctx, ApplyAll(NONE, leaves)) {
          OtherParamAsked(t, ctx, leaves, k, row);
        }
      }
    }
  }

  /** The rows `thruk_problems` shows are, in order, exactly those of the data that should be shown, for every filter
      it accepts and every backend that leaks rows outside the groups asked for. */
  lemma ShownExactly(t: Thruk, ctx: Context, compiles: string -> bool, n: Node, data: seq<Row>,
                     returned: Row -> bool, meant: Row -> bool)
    requires Valid(n, FIELDS_PROBLEMS, compiles, 0) && !Rejected(n) && NoGte(n)
    requires Answers(t, ctx, Sent(ctx, n), data, returned)
    requires forall row :: row in data ==> (meant(row) <==> ShouldBeShown(t, ctx, n, row))
    ensures Kept(t.rx, ctx, n, Filter(data, returned)) == Filter(data, meant)
  {
    AcceptedLeaves(compiles, n);
    forall row | row in data
      ensures meant(row) <==>
        ParamsHold(t, ctx, OtherParams(Sent(ctx, n)), row) && HoldsIfAny(t, ctx, GroupPart(n), row)
    {
      OtherParamsMean(t, ctx, n, row);
      GroupPartIsItsLeaves(t, ctx, compiles, n, row);
    }
    RecheckRepairs(t, ctx, compiles, n, OwnParams(ctx), data, returned, meant);
  }

  // ---- Are they problems? --------------------------------------------------------------------------------------

  const UP := Row(map[], 0, 0, {}, {}, map[], map[])

  /** Every object the parameters let through has a state of trouble. */
  ghost predicate OnlyProblems(t: Thruk, ctx: Context, n: Node) {
    forall row: Row :: row.state >= 0 && ParamsHold(t, ctx, Sent(ctx, n), row) ==> row.state >= 1
  }

  lemma SentMeans(t: Thruk, ctx: Context, n: Node, row: Row)
    requires AllAccepted(Leaves(n))
    ensures ParamsHold(t, ctx, Sent(ctx, n), row) <==>
      && (IsOwnProblem(ctx, row) || ReplacesOwn(ctx, Leaves(n)))
      && AllAsked(t, ctx, Leaves(n), row)
  {
    var leaves, asked := Leaves(n), Side(ctx, ApplyAll(NONE, Leaves(n)));
    OwnKeyExactly(ctx, leaves);
    OwnParamHolds(t, ctx, row);
    LeavesAskedExactly(t, ctx, leaves, row);
    UpdatedHolds(t, ctx, Key(StateCol, OwnState(ctx)), StateParam(Code(1)), asked, row);
  }

  lemma UpdatedHolds(t: Thruk, ctx: Context, k: Key, p: Param, asked: Params, row: Row)
    ensures ParamsHold(t, ctx, map[k := p] + asked, row) <==>
      (k in asked || ParamHolds(t, ctx, k, p, row)) && ParamsHold(t, ctx, asked, row)
  {
    var sent := map[k := p] + asked;
    if ParamsHold(t, ctx, sent, row) {
      assert k in sent;
      forall j | j in asked ensures ParamHolds(t, ctx, j, asked[j], row) {
        assert j in sent;
      }
    }
  }

  /** A state leaf does not look at anything but the state. */
  lemma StateOnly(t: Thruk, ctx: Context, l: Node, a: Row, b: Row)
    requires IsAccepted(l) && if l.field == State then a.state == b.state else a == b.(state := a.state)
    ensures Holds(t, ctx, Meant(ctx, l), a) <==> Holds(t, ctx, Meant(ctx, l), b)
  {
  }

  /** Every object shown is a problem, if and only if no state leaf has the operator of the tool's own condition, which
      it would replace, or a state leaf that is asked for keeps objects that are UP or OK out. */
  lemma OnlyProblemsExactly(t: Thruk, ctx: Context, compiles: string -> bool, n: Node, other: Row)
    requires Valid(n, FIELDS_PROBLEMS, compiles, 0) && !Rejected(n)
    requires forall i :: Survives(Leaves(n), i) && Leaves(n)[i].Leaf? && Leaves(n)[i].field != State ==>
      Holds(t, ctx, Meant(ctx, Leaves(n)[i]), other)
    ensures OnlyProblems(t, ctx, n) <==>
      || !ReplacesOwn(ctx, Leaves(n))
      || exists i :: Survives(Leaves(n), i) && Leaves(n)[i].Leaf? && Leaves(n)[i].field == State
                     && !Holds(t, ctx, Meant(ctx, Leaves(n)[i]), UP)
  {
    AcceptedLeaves(compiles, n);
    if !ReplacesOwn(ctx, Leaves(n)) {
      forall row: Row | row.state >= 0 && ParamsHold(t, ctx, Sent(ctx, n), row) ensures row.state >= 1 {
        SentMeans(t, ctx, n, row);
      }
    } else if OnlyProblems(t, ctx, n) {
      UpIsKeptOut(t, ctx, n, other);
    } else {
      UpIsLetThrough(t, ctx, n);
    }
  }

  lemma UpIsKeptOut(t: Thruk, ctx: Context, n: Node, other: Row)
    requires AllAccepted(Leaves(n)) && ReplacesOwn(ctx, Leaves(n)) && OnlyProblems(t, ctx, n)
    requires forall i :: Survives(Leaves(n), i) && Leaves(n)[i].Leaf? && Leaves(n)[i].field != State ==>
      Holds(t, ctx, Meant(ctx, Leaves(n)[i]), other)
    ensures exists i :: Survives(Leaves(n), i) && Leaves(n)[i].Leaf? && Leaves(n)[i].field == State
                        && !Holds(t, ctx, Meant(ctx, Leaves(n)[i]), UP)
  {
    var leaves, row := Leaves(n), other.(state := 0);
    SentMeans(t, ctx, n, row);
    var i :| !LeafAsked(t, ctx, leaves, i, row);
    assert leaves[i] in leaves;
    StateOnly(t, ctx, leaves[i], row, if leaves[i].field == State then UP else other);
  }

  lemma UpIsLetThrough(t: Thruk, ctx: Context, n: Node)
    requires AllAccepted(Leaves(n)) && !OnlyProblems(t, ctx, n)
    ensures forall i :: Survives(Leaves(n), i) && Leaves(n)[i].Leaf? && Leaves(n)[i].field == State ==>
      Holds(t, ctx, Meant(ctx, Leaves(n)[i]), UP)
  {
    var row: Row :| row.state >= 0 && ParamsHold(t, ctx, Sent(ctx, n), row) && row.state < 1;
    SentMeans(t, ctx, n, row);
    forall i | Survives(Leaves(n), i) && Leaves(n)[i].Leaf? && Leaves(n)[i].field == State
      ensures Holds(t, ctx, Meant(ctx, Leaves(n)[i]), UP)
    {
      assert LeafAsked(t, ctx, Leaves(n), i, row) && Leaves(n)[i] in Leaves(n);
      StateOnly(t, ctx, Leaves(n)[i], row, UP);
    }
  }

  /** `state eq up` lists the hosts that are up as problems. */
  lemma UpIsListed(t: Thruk, compiles: string -> bool)
    ensures var n := Leaf(State, Eq, One("up"));
      && Valid(n, FIELDS_PROBLEMS, compiles, 0) && !Rejected(n)
      && ParamsHold(t, Hosts, Sent(Hosts, n), UP) && !OnlyProblems(t, Hosts, n)
  {
    var n := Leaf(State, Eq, One("up"));
    AcceptedLeaves(compiles, n);
    SentMeans(t, Hosts, n, UP);
    assert n in Leaves(n) && ReplacesOwn(Hosts, Leaves(n));
    forall i ensures LeafAsked(t, Hosts, Leaves(n), i, UP) {
      if Survives(Leaves(n), i) {
        assert Leaves(n)[i] == n;
        SentNumber("up", 0);
        PrintedNumberIsCode(Hosts, 0);
      }
    }
  }
}
