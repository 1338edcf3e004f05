/** Which numbers the names of states stand for (constants.py), in what a filter means and in what it is
    compiled to. Names are read without regard to case. */
module StateNames {
  import opened Basics
  import opened FilterTree
  import opened ThrukQuery
  import opened FilterCompiler
  import opened LeafMeaning
  import opened ParamDictionary
  import opened FilterMeaning
  import AlertType
  import Q = QExpression

  // ---- The names -----------------------------------------------------------------------------------------

  /** The names of the number `n` among the states of hosts. */
  ghost predicate NamesHostState(s: string, n: int) {
    || (n == 0 && (Spells(s, "up") || s == "0"))
    || (n == 1 && (Spells(s, "down") || s == "1"))
    || (n == 2 && (Spells(s, "unreachable") || s == "2"))
  }

  /** The names of the number `n` among the states of services. */
  ghost predicate NamesServiceState(s: string, n: int) {
    || (n == 0 && (Spells(s, "ok") || s == "0"))
    || (n == 1 && (Spells(s, "warning") || s == "1"))
    || (n == 2 && (Spells(s, "critical") || s == "2"))
    || (n == 3 && (Spells(s, "unknown") || s == "3"))
  }

  lemma DigitSpells(s: string, d: string)
    requires |d| == 1 && '0' <= d[0] <= '9'
    ensures Lower(s) == d <==> s == d
  {
    LowerExactly(s, d);
  }

  lemma HostNumber(s: string, n: int)
    ensures HostStateInt(Lower(s)) == Some(n) <==> NamesHostState(s, n)
  {
    LowerExactly(s, "up");
    LowerExactly(s, "down");
    LowerExactly(s, "unreachable");
    DigitSpells(s, "0");
    DigitSpells(s, "1");
    DigitSpells(s, "2");
  }

  lemma ServiceNumber(s: string, n: int)
    ensures SvcStateInt(Lower(s)) == Some(n) <==> NamesServiceState(s, n)
  {
    LowerExactly(s, "ok");
    LowerExactly(s, "warning");
    LowerExactly(s, "critical");
    LowerExactly(s, "unknown");
    DigitSpells(s, "0");
    DigitSpells(s, "1");
    DigitSpells(s, "2");
    DigitSpells(s, "3");
  }

  // ---- What the compiled query selects ------------------------------------------------------------------------

  /** The states selected are those on the named side of the number. */
  ghost predicate Compares(selected: bool, op: Op, state: int, n: int) {
    match op
    case Eq => selected <==> state == n
    case Neq => selected <==> state != n
    case Gte => selected <==> state >= n
    case Lte => selected <==> state <= n
    case other => true
  }

  /** The query of one leaf: a parameter. */
  lemma OneParameter(t: Thruk, ctx: Context, andFirst: bool, l: Node, row: Row)
    requires l.Leaf? && l.op != In && ParamOf(ctx, l).Ok?
    ensures Compile(ctx, l).Ok?
    ensures Selects(t, ctx, andFirst, Compile(ctx, l).value, row) <==> LeafParamHolds(t, ctx, l, row)
  {
    var (k, p) := ParamOf(ctx, l).value;
    assert Compile(ctx, l) == Ok(Query(map[k := p], None));
    assert ParamsHold(t, ctx, map[k := p], row) <==> ParamHolds(t, ctx, k, p, row) by {
      assert k in map[k := p];
    }
  }

  lemma OneLeafTree(ctx: Context, l: Node)
    requires l.Leaf? && l.op != In
    ensures Expand(Group(true, [l])) == Group(true, [l])
    ensures ToQ(ctx, Group(true, [l])) == Q.QGroup(true, [Q.QLeaf(AtomFor(ctx, l.field, l.op, l.value))])
  {
    assert [l][1..] == [] && ExpandAll([]) == [] && ToQs(ctx, []) == [];
    assert ExpandAll([l]) == [l];
    assert ToQs(ctx, [l]) == [ToQ(ctx, l)] + ToQs(ctx, []) == [ToQ(ctx, l)];
  }

  /** The query of an OR of one leaf: a text. */
  lemma OneAlternative(t: Thruk, ctx: Context, andFirst: bool, l: Node, row: Row)
    requires l.Leaf? && l.op != In
    ensures Compile(ctx, Group(true, [l])).Ok?
    ensures Selects(t, ctx, andFirst, Compile(ctx, Group(true, [l])).value, row) <==>
      AtomHolds(t, ctx, AtomFor(ctx, l.field, l.op, l.value), row)
  {
    var holds := (a: QAtom) => AtomHolds(t, ctx, a, row);
    var q := Q.QLeaf(AtomFor(ctx, l.field, l.op, l.value));
    OneLeafTree(ctx, l);
    Q.PrintKeepsMeaning(andFirst, Q.QGroup(true, [q]), true, holds);
    assert q in [q] && Q.Means(q, holds) == holds(q.atom);
    assert Compile(ctx, Group(true, [l])) == Ok(Query(map[], Some(BuildQ(ctx, Group(true, [l])))));
  }

  /** As a parameter a name stands for its number: a service's everywhere, a host's everywhere but on services. */
  lemma NamedStateAsParameter(t: Thruk, ctx: Context, andFirst: bool, op: Op, s: string, n: int, row: Row)
    requires IsCompare(op) && (NamesServiceState(s, n) || (ctx != Services && NamesHostState(s, n)))
    ensures Compile(ctx, Leaf(State, op, One(s))).Ok?
    ensures Compares(Selects(t, ctx, andFirst, Compile(ctx, Leaf(State, op, One(s))).value, row), op, row.state, n)
  {
    ServiceNumber(s, n);
    HostNumber(s, n);
    NumbersAgree(s, n);
    CodeIsCompared(t, ctx, op, s, n, row);
    OneParameter(t, ctx, andFirst, Leaf(State, op, One(s)), row);
  }

  /** The two tables give one text no two numbers. */
  lemma NumbersAgree(s: string, n: int)
    ensures HostStateInt(Lower(s)) == Some(n) && SvcStateInt(Lower(s)).Some? ==> SvcStateInt(Lower(s)) == Some(n)
  {
  }

  /** In the text a name stands for its number on its own endpoint: a service's on services, a host's elsewhere. */
  lemma NamedStateAsText(t: Thruk, ctx: Context, andFirst: bool, op: Op, s: string, n: int, row: Row)
    requires IsCompare(op) && if ctx == Services then NamesServiceState(s, n) else NamesHostState(s, n)
    ensures Compile(ctx, Group(true, [Leaf(State, op, One(s))])).Ok?
    ensures Compares(Selects(t, ctx, andFirst, Compile(ctx, Group(true, [Leaf(State, op, One(s))])).value, row),
                     op, row.state, n)
  {
    ServiceNumber(s, n);
    HostNumber(s, n);
    CodeIsCompared(t, ctx, op, s, n, row);
    OneAlternative(t, ctx, andFirst, Leaf(State, op, One(s)), row);
  }

  /** A state listed with `in` is compiled as an OR of equalities, one for each name. */
  lemma ListedState(ctx: Context, s: string)
    ensures Compile(ctx, Leaf(State, In, Many([s]))) == Compile(ctx, Group(true, [Leaf(State, Eq, One(s))]))
  {
    assert [s][1..] == [] && EqLeaves(State, []) == [];
    var l := Leaf(State, Eq, One(s));
    assert EqLeaves(State, [s]) == [l];
    assert [l][1..] == [] && ExpandAll([]) == [];
    assert ExpandAll([l]) == [l];
  }

  /** What else is written for a state is handed to Thruk: a host's name on services, and in the text a service's
      name anywhere else, and what is no name at all. */
  lemma OtherTextIsHandedOn(t: Thruk, ctx: Context, andFirst: bool, op: Op, s: string, row: Row)
    requires IsCompare(op) && !IsDigits(s)
    ensures var l := Leaf(State, op, One(s));
      && ((forall n :: !NamesServiceState(s, n) && (ctx != Services ==> !NamesHostState(s, n))) ==>
            Compile(ctx, l).Ok? &&
            (Selects(t, ctx, andFirst, Compile(ctx, l).value, row) <==> t.odd(One(s), row.state)))
      && ((forall n :: if ctx == Services then !NamesServiceState(s, n) else !NamesHostState(s, n)) ==>
            Compile(ctx, Group(true, [l])).Ok? &&
            (Selects(t, ctx, andFirst, Compile(ctx, Group(true, [l])).value, row) <==> t.odd(One(s), row.state)))
  {
    forall n ensures SvcStateInt(Lower(s)) == Some(n) <==> NamesServiceState(s, n) { ServiceNumber(s, n); }
    forall n ensures HostStateInt(Lower(s)) == Some(n) <==> NamesHostState(s, n) { HostNumber(s, n); }
    OneParameter(t, ctx, andFirst, Leaf(State, op, One(s)), row);
    OneAlternative(t, ctx, andFirst, Leaf(State, op, One(s)), row);
  }

  /** A state written in digits is that number, as a parameter and in the text. */
  lemma DigitsAsState(t: Thruk, ctx: Context, andFirst: bool, op: Op, s: string, row: Row)
    requires IsCompare(op) && IsDigits(s)
    ensures var l := Leaf(State, op, One(s));
      && Compile(ctx, l).Ok? && Compile(ctx, Group(true, [l])).Ok?
      && Compares(Selects(t, ctx, andFirst, Compile(ctx, l).value, row), op, row.state, DigitsValue(s))
      && Compares(Selects(t, ctx, andFirst, Compile(ctx, Group(true, [l])).value, row), op, row.state, DigitsValue(s))
  {
    DigitCodes(ctx, s);
    CodeIsCompared(t, ctx, op, s, DigitsValue(s), row);
    OneParameter(t, ctx, andFirst, Leaf(State, op, One(s)), row);
    OneAlternative(t, ctx, andFirst, Leaf(State, op, One(s)), row);
  }

  lemma DigitCodes(ctx: Context, s: string)
    requires IsDigits(s)
    ensures ArgCode(BracketState(ctx, s)) == ArgCode(QState(ctx, s)) == Some(DigitsValue(s))
  {
    LowerDigits(s);
    DigitStates(s);
  }

  lemma CodeIsCompared(t: Thruk, ctx: Context, op: Op, s: string, n: int, row: Row)
    requires IsCompare(op)
    ensures ParamOf(ctx, Leaf(State, op, One(s))).Ok?
    ensures ArgCode(BracketState(ctx, s)) == Some(n) ==>
      Compares(LeafParamHolds(t, ctx, Leaf(State, op, One(s)), row), op, row.state, n)
    ensures ArgCode(QState(ctx, s)) == Some(n) ==>
      Compares(AtomHolds(t, ctx, AtomFor(ctx, State, op, One(s)), row), op, row.state, n)
  {
  }

  // ---- The kind of alert a name stands for ----------------------------------------------------------------------

  /** Only a name that belongs to one kind of object alone narrows the type of alert. */
  lemma KindOfName(s: string)
    ensures AlertType.Classify(s) == AlertType.HostOnly <==>
      Spells(s, "up") || Spells(s, "down") || Spells(s, "unreachable")
    ensures AlertType.Classify(s) == AlertType.ServiceOnly <==>
      Spells(s, "ok") || Spells(s, "warning") || Spells(s, "critical") || Spells(s, "unknown")
  {
    LowerExactly(s, "up");
    LowerExactly(s, "down");
    LowerExactly(s, "unreachable");
    LowerExactly(s, "ok");
    LowerExactly(s, "warning");
    LowerExactly(s, "critical");
    LowerExactly(s, "unknown");
  }
}
