/** Compiled queries and what Thruk selects with them.

    Bracket parameters are a dictionary; the `q=` text must be read back before it means anything. */
module ThrukQuery {
  import opened Basics
  import opened FilterTree
  import Texts
  import Q = QExpression

  // ---- The compiled query ------------------------------------------------------------------------

  /** A query column. A custom variable's column is `_` and its name, with `HOST` in front for the
      host's own variables: two variables can share a column. */
  datatype Column = TextCol(f: Field) | StateCol | TimeCol | GroupsCol | HostGroupsCol | VarCol(name: string)

  datatype BracketOp = Plain | Ne | GteOp | LteOp | RegexOp | NotIn

  datatype Key = Key(column: Column, bop: BracketOp)

  /** A parameter value: the leaf's own, a state argument, or a pattern made by the compiler. */
  datatype Param = Given(v: Value) | StateParam(arg: StateArg) | AnyOf(items: seq<string>) | Exactly(names: seq<string>)

  type Params = map<Key, Param>

  datatype QOp = QEq | QNe | QGe | QLe | QRx

  datatype QAtom = QAtom(column: Column, qop: QOp, value: Param)

  type Text = seq<Q.Token<QAtom>>

  /** The parameter dictionary; its `q` entry apart, since no column is called `q`. */
  datatype Query = Query(params: Params, q: Option<Text>)

  datatype Outcome<T> = Ok(value: T) | FilterError

  // ---- What Thruk selects ------------------------------------------------------------------------

  const HOST_PREFIX := "HOST"

  /** `_NAME` on a row: on services, `_HOSTNAME` is the host's variable `NAME`. */
  function VariableOf(ctx: Context, name: string, row: Row): string {
    if ctx == Services && HOST_PREFIX <= name then Lookup(row.hostVars, name[|HOST_PREFIX|..])
    else Lookup(row.vars, name)
  }

  predicate PatternMatches(t: Thruk, p: Param, text: string) {
    match p
    case Given(One(s)) => t.rx(s, text)
    case AnyOf(items) => exists i :: 0 <= i < |items| && Occurs(items[i], text)
    case Exactly(names) => text in names
    case other => false
  }

  predicate StateMatches(t: Thruk, op: Op, p: Param, row: Row)
    requires IsCompare(op)
  {
    match p
    case StateParam(arg) =>
      (match ArgCode(arg)
       case Some(n) => Compare(op, row.state, n)
       case None => t.odd(One(arg.s), row.state))
    case Given(v) => t.odd(v, row.state)
    case other => false
  }

  /** A state argument as it is written. */
  function ArgText(a: StateArg): string {
    match a
    case Code(n) => Texts.PrintInt(n)
    case Raw(s) => s
  }

  /** A pattern for a state is left to Thruk. */
  predicate StatePattern(t: Thruk, p: Param, row: Row) {
    match p
    case StateParam(arg) => t.odd(One(ArgText(arg)), row.state)
    case Given(v) => t.odd(v, row.state)
    case other => false
  }

  predicate TimeMatches(t: Thruk, op: Op, p: Param, row: Row)
    requires IsCompare(op)
  {
    match p
    case Given(One(s)) => Compare(op, row.time, t.epoch(s))
    case Given(v) => t.odd(v, row.time)
    case other => false
  }

  /** Membership of a group column; a repeated parameter is a list of alternatives. */
  predicate Contains(groups: set<string>, p: Param) {
    match p
    case Given(One(s)) => s in groups
    case Given(Many(items)) => exists i :: 0 <= i < |items| && items[i] in groups
    case other => false
  }

  function GroupColumn(c: Column, row: Row): set<string> {
    if c == HostGroupsCol then row.hostGroups else row.groups
  }

  function OpOf(bop: BracketOp): Op {
    match bop
    case Ne => Neq
    case GteOp => Gte
    case LteOp => Lte
    case other => Eq
  }

  predicate TextMatches(t: Thruk, op: Op, text: string, p: Param)
    requires IsCompare(op)
  {
    p.Given? && p.v.One? && CompareText(t, op, text, p.v.s)
  }

  /** One parameter's condition on a row. */
  predicate ParamHolds(t: Thruk, ctx: Context, k: Key, p: Param, row: Row) {
    match k.column
    case TextCol(f) =>
      if k.bop == RegexOp then PatternMatches(t, p, TextOf(row, f)) else TextMatches(t, OpOf(k.bop), TextOf(row, f), p)
    case StateCol => if k.bop == RegexOp then StatePattern(t, p, row) else StateMatches(t, OpOf(k.bop), p, row)
    case TimeCol => TimeMatches(t, OpOf(k.bop), p, row)
    case GroupsCol => if k.bop == NotIn then !Contains(row.groups, p) else Contains(row.groups, p)
    case HostGroupsCol => if k.bop == NotIn then !Contains(row.hostGroups, p) else Contains(row.hostGroups, p)
    case VarCol(name) => TextMatches(t, OpOf(k.bop), VariableOf(ctx, name, row), p)
  }

  function OpOfQ(qop: QOp): Op {
    match qop
    case QEq => Eq
    case QNe => Neq
    case QGe => Gte
    case QLe => Lte
    case QRx => Eq
  }

  /** One atom's condition on a row. On a group column `>=` is membership and `!=` its opposite. */
  predicate AtomHolds(t: Thruk, ctx: Context, a: QAtom, row: Row) {
    match a.column
    case TextCol(f) =>
      if a.qop == QRx then PatternMatches(t, a.value, TextOf(row, f))
      else TextMatches(t, OpOfQ(a.qop), TextOf(row, f), a.value)
    case StateCol => StateMatches(t, OpOfQ(a.qop), a.value, row)
    case TimeCol => TimeMatches(t, OpOfQ(a.qop), a.value, row)
    case VarCol(name) => TextMatches(t, OpOfQ(a.qop), VariableOf(ctx, name, row), a.value)
    case other =>
      if a.qop == QNe then !Contains(GroupColumn(a.column, row), a.value)
      else Contains(GroupColumn(a.column, row), a.value)
  }

  ghost predicate ParamsHold(t: Thruk, ctx: Context, params: Params, row: Row) {
    forall k :: k in params ==> ParamHolds(t, ctx, k, params[k], row)
  }

  /** All parameters and the `q=` text together; `andFirst` is the reader's operator precedence. */
  ghost predicate Selects(t: Thruk, ctx: Context, andFirst: bool, query: Query, row: Row) {
    && ParamsHold(t, ctx, query.params, row)
    && (query.q.Some? ==> Q.TextHolds(andFirst, query.q.value, (a: QAtom) => AtomHolds(t, ctx, a, row)))
  }
}
