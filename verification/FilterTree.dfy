/** Filter trees (filters.py): their shape, validation, and what they are meant to select.

    A scalar value is held as its text, `str(value)`: that is all the code looks at. What Thruk's
    operators do with texts is a parameter, `Thruk`. */
module FilterTree {
  import opened Basics

  datatype Field =
    | Name | Address | Host | Service | Description | Message | Contact
    | State | Hostgroup | Servicegroup | CustomVar | HostCustomVar | Since | Until

  datatype Op = Eq | Neq | Regex | In | Gte | Lte

  /** A scalar, a list, or the dict of a custom variable (`val` is empty when missing). */
  datatype Value = One(s: string) | Many(items: seq<string>) | Variable(name: string, val: string) | Null

  datatype Node = Leaf(field: Field, op: Op, value: Value) | Group(isOr: bool, conds: seq<Node>)

  datatype Context = Hosts | Services | Logs | Alerts | Notifications

  const MAX_DEPTH := 4

  const FIELDS_HOSTS: set<Field> := {Name, State, Hostgroup, CustomVar, Address}
  const FIELDS_ALERTS: set<Field> := {Host, Service, State, Hostgroup, CustomVar, Since, Until}
  const FIELDS_PROBLEMS: set<Field> := {State, Hostgroup, CustomVar, HostCustomVar}
  const FIELDS_TOTALS: set<Field> := {Hostgroup, Servicegroup, CustomVar}

  predicate IsCv(f: Field) {
    f in {CustomVar, HostCustomVar}
  }

  predicate IsGroupField(f: Field) {
    f in {Hostgroup, Servicegroup}
  }

  predicate IsText(f: Field) {
    f in {Name, Address, Host, Service, Description, Message, Contact}
  }

  // ---- Validation ------------------------------------------------------------------------------

  /** `_validate_leaf`; `compiles` is the regular-expression compiler's verdict. */
  predicate ValidLeaf(f: Field, op: Op, v: Value, allowed: set<Field>, compiles: string -> bool) {
    && f in allowed
    && (IsGroupField(f) ==> op in {Eq, Neq, Gte, In})
    && v != Null
    && (match op
        case In => v.Many? && v.items != []
        case Regex => v.One? && compiles(v.s)
        case other => IsCv(f) || v.One?)
    && (IsCv(f) ==> v.Variable? && v.name != "")
  }

  /** `validate_filter`. */
  predicate Valid(n: Node, allowed: set<Field>, compiles: string -> bool, depth: nat)
    decreases n
  {
    && depth <= MAX_DEPTH
    && match n
       case Leaf(f, op, v) => ValidLeaf(f, op, v, allowed, compiles)
       case Group(_, conds) => conds != [] && forall c :: c in conds ==> Valid(c, allowed, compiles, depth + 1)
  }

  /** Which leaves are accepted, field by field: a custom variable with a name and a comparison; a group compared for
      membership with one name, or with `in` and a list; any other field compared with one value, with a regular
      expression that compiles, or with `in` and a list. */
  lemma LeafAcceptedExactly(f: Field, op: Op, v: Value, allowed: set<Field>, compiles: string -> bool)
    ensures ValidLeaf(f, op, v, allowed, compiles) <==>
      f in allowed &&
      match f
      case CustomVar | HostCustomVar => op in {Eq, Neq, Gte, Lte} && v.Variable? && v.name != ""
      case Hostgroup | Servicegroup => (op in {Eq, Neq, Gte} && v.One?) || (op == In && v.Many? && v.items != [])
      case other =>
        || (op in {Eq, Neq, Gte, Lte} && v.One?)
        || (op == Regex && v.One? && compiles(v.s))
        || (op == In && v.Many? && v.items != [])
  {
  }

  /** What the compiler relies on: shapes, no empty group. */
  ghost predicate WellFormed(n: Node) {
    match n
    case Leaf(f, op, v) => ShapeOk(f, op, v)
    case Group(_, conds) => conds != [] && forall c :: c in conds ==> WellFormed(c)
  }

  /** The shape of a leaf's value. */
  predicate ShapeOk(f: Field, op: Op, v: Value) {
    if IsCv(f) then v.Variable? && op !in {In, Regex}
    else
      && (IsGroupField(f) ==> op in {Eq, Neq, Gte, In})
      && (if op == In then v.Many? && v.items != [] else v.One?)
  }

  lemma {:induction false} ValidIsWellFormed(n: Node, allowed: set<Field>, compiles: string -> bool, depth: nat)
    requires Valid(n, allowed, compiles, depth)
    ensures WellFormed(n)
  {
    if n.Leaf? {
    } else {
      forall c | c in n.conds ensures WellFormed(c) {
        ValidIsWellFormed(c, allowed, compiles, depth + 1);
      }
    }
  }

  /** Levels below the root. */
  function Height(n: Node): nat
    decreases n, 1
  {
    match n
    case Leaf(_, _, _) => 0
    case Group(_, conds) => if conds == [] then 0 else 1 + Tallest(conds)
  }

  function Tallest(conds: seq<Node>): nat
    decreases conds, 0
  {
    if conds == [] then 0
    else
      var rest := Tallest(conds[1..]);
      if Height(conds[0]) > rest then Height(conds[0]) else rest
  }

  /** `m` is a node of the tree. */
  ghost predicate Within(n: Node, m: Node) {
    n == m || (n.Group? && exists c :: c in n.conds && Within(c, m))
  }

  predicate NodeIsValid(m: Node, allowed: set<Field>, compiles: string -> bool) {
    match m
    case Leaf(f, op, v) => ValidLeaf(f, op, v, allowed, compiles)
    case Group(_, conds) => conds != []
  }

  /** A tree is accepted exactly when it is not too tall, no group is empty and every leaf is valid. */
  lemma {:induction false} ValidExactly(n: Node, allowed: set<Field>, compiles: string -> bool, depth: nat)
    ensures Valid(n, allowed, compiles, depth) <==>
      depth + Height(n) <= 4 && forall m :: Within(n, m) ==> NodeIsValid(m, allowed, compiles)
    decreases n, 1
  {
    if n.Group? {
      AllValidExactly(n.conds, allowed, compiles, depth + 1);
      assert Within(n, n);
      forall m | Within(n, m) && n != m ensures exists c :: c in n.conds && Within(c, m) {}
      forall c, m | c in n.conds && Within(c, m) ensures Within(n, m) {}
    } else {
      assert Within(n, n);
    }
  }

  lemma {:induction false} AllValidExactly(conds: seq<Node>, allowed: set<Field>, compiles: string -> bool, depth: nat)
    ensures conds != [] ==> ((forall c :: c in conds ==> Valid(c, allowed, compiles, depth)) <==>
      && depth + Tallest(conds) <= 4
      && forall c, m :: c in conds && Within(c, m) ==> NodeIsValid(m, allowed, compiles))
    decreases conds, 0
  {
    if conds == [] {
    } else {
      ValidExactly(conds[0], allowed, compiles, depth);
      AllValidExactly(conds[1..], allowed, compiles, depth);
      assert conds == [conds[0]] + conds[1..];
    }
  }

  // ---- Texts -----------------------------------------------------------------------------------

  function UpperChar(c: char): char {
    if 'a' <= c <= 'z' then (c as int - 32) as char else c
  }

  function LowerChar(c: char): char {
    if 'A' <= c <= 'Z' then (c as int + 32) as char else c
  }

  function Upper(s: string): (r: string)
    ensures |r| == |s|
  {
    if s == [] then [] else [UpperChar(s[0])] + Upper(s[1..])
  }

  /** The capital of a small letter stands where the letter stands in the alphabet; nothing else changes. */
  lemma {:induction false} UpperExactly(s: string, i: nat)
    requires i < |s|
    ensures if 'a' <= s[i] <= 'z' then Upper(s)[i] as int - 'A' as int == s[i] as int - 'a' as int
            else Upper(s)[i] == s[i]
  {
    if i == 0 {
    } else {
      UpperExactly(s[1..], i - 1);
    }
  }

  function Lower(s: string): string {
    if s == [] then [] else [LowerChar(s[0])] + Lower(s[1..])
  }

  /** `s` is `name` with some of its letters in upper case. */
  ghost predicate Spells(s: string, name: string) {
    && |s| == |name|
    && forall i :: 0 <= i < |s| ==>
         s[i] == name[i] || ('A' <= s[i] <= 'Z' && name[i] as int - 'a' as int == s[i] as int - 'A' as int)
  }

  ghost predicate NoCapital(s: string) {
    forall i :: 0 <= i < |s| ==> !('A' <= s[i] <= 'Z')
  }

  /** Two texts have the same lower case as a name without capitals exactly when they spell it. */
  lemma {:induction false} LowerExactly(s: string, name: string)
    requires NoCapital(name)
    ensures Lower(s) == name <==> Spells(s, name)
  {
    if s == [] {
    } else if name == [] {
    } else {
      LowerExactly(s[1..], name[1..]);
      assert name == [name[0]] + name[1..];
      assert Spells(s, name) <==> Spells([s[0]], [name[0]]) && Spells(s[1..], name[1..]) by {
        SpellsHead(s, name);
      }
    }
  }

  lemma SpellsHead(s: string, name: string)
    requires s != [] && name != []
    ensures Spells(s, name) <==> Spells([s[0]], [name[0]]) && Spells(s[1..], name[1..])
  {
    if Spells([s[0]], [name[0]]) && Spells(s[1..], name[1..]) {
      forall i | 0 <= i < |s|
        ensures s[i] == name[i] || ('A' <= s[i] <= 'Z' && name[i] as int - 'a' as int == s[i] as int - 'A' as int)
      {
        if i == 0 {
          assert [s[0]][0] == s[0];
        } else {
          assert s[i] == s[1..][i - 1] && name[i] == name[1..][i - 1];
        }
      }
    }
    if Spells(s, name) {
      forall i | 0 <= i < |s| - 1 ensures s[1..][i] == s[i + 1] && name[1..][i] == name[i + 1] {}
    }
  }

  predicate IsDigits(s: string) {
    s != [] && forall i :: 0 <= i < |s| ==> IsDigit(s[i])
  }

  /** `part` occurs somewhere in `text`. */
  predicate Occurs(part: string, text: string) {
    part <= text || (text != [] && Occurs(part, text[1..]))
  }

  // ---- States ----------------------------------------------------------------------------------

  function HostStateInt(s: string): Option<int> {
    if s == "up" || s == "0" then Some(0)
    else if s == "down" || s == "1" then Some(1)
    else if s == "unreachable" || s == "2" then Some(2)
    else None
  }

  function SvcStateInt(s: string): Option<int> {
    if s == "ok" || s == "0" then Some(0)
    else if s == "warning" || s == "1" then Some(1)
    else if s == "critical" || s == "2" then Some(2)
    else if s == "unknown" || s == "3" then Some(3)
    else None
  }

  /** A state argument as it goes over the wire: a code, or a text Thruk has to make something of. */
  datatype StateArg = Code(n: int) | Raw(s: string)

  /** The argument's number, if it has one. */
  function ArgCode(a: StateArg): Option<int> {
    match a
    case Code(n) => Some(n)
    case Raw(s) => if IsDigits(s) then Some(DigitsValue(s)) else None
  }

  /** A state value in a context: service names on /services, host and service names elsewhere. */
  function StateCode(ctx: Context, s: string): Option<int> {
    var raw := Lower(s);
    if SvcStateInt(raw).Some? then SvcStateInt(raw)
    else if ctx != Services && HostStateInt(raw).Some? then HostStateInt(raw)
    else if IsDigits(s) then Some(DigitsValue(s))
    else None
  }

  // ---- Rows and Thruk's operators --------------------------------------------------------------

  datatype Row = Row(text: map<Field, string>, state: int, time: int, groups: set<string>,
                     hostGroups: set<string>, vars: map<string, string>, hostVars: map<string, string>)

  /** What Thruk makes of regular expressions, of text comparison, of time values, and of arguments that
      fit no column. */
  datatype Thruk = Thruk(rx: (string, string) -> bool, le: (string, string) -> bool,
                         epoch: string -> int, odd: (Value, int) -> bool)

  function TextOf(row: Row, f: Field): string {
    if f in row.text then row.text[f] else ""
  }

  function Lookup(vars: map<string, string>, name: string): string {
    if name in vars then vars[name] else ""
  }

  predicate IsCompare(op: Op) {
    !op.In? && !op.Regex?
  }

  predicate Compare(op: Op, left: int, right: int)
    requires IsCompare(op)
  {
    match op
    case Eq => left == right
    case Neq => left != right
    case Gte => left >= right
    case Lte => left <= right
  }

  predicate CompareText(t: Thruk, op: Op, left: string, right: string)
    requires IsCompare(op)
  {
    match op
    case Eq => left == right
    case Neq => left != right
    case Gte => t.le(right, left)
    case Lte => t.le(left, right)
  }

  // ---- What a leaf is meant to select ------------------------------------------------------------

  /** The group column a field means in a context. */
  function GroupsOf(ctx: Context, f: Field, row: Row): set<string> {
    if f == Hostgroup && ctx == Services then row.hostGroups else row.groups
  }

  predicate StateHolds(t: Thruk, ctx: Context, op: Op, s: string, row: Row)
    requires IsCompare(op)
  {
    match StateCode(ctx, s)
    case Some(n) => Compare(op, row.state, n)
    case None => t.odd(One(s), row.state)
  }

  /** The condition a single value states. */
  predicate OneHolds(t: Thruk, ctx: Context, f: Field, op: Op, s: string, row: Row)
    requires IsCompare(op)
  {
    if f == State then StateHolds(t, ctx, op, s, row)
    else if IsGroupField(f) then (if op == Neq then s !in GroupsOf(ctx, f, row) else s in GroupsOf(ctx, f, row))
    else if f in {Since, Until} then Compare(op, row.time, t.epoch(s))
    else CompareText(t, op, TextOf(row, f), s)
  }

  ghost predicate LeafHolds(t: Thruk, ctx: Context, f: Field, op: Op, v: Value, row: Row) {
    if v.Variable? then
      IsCompare(op) &&
      CompareText(t, op, Lookup(if f == HostCustomVar then row.hostVars else row.vars, Upper(v.name)), v.val)
    else if op == In then v.Many? && exists i :: 0 <= i < |v.items| && OneHolds(t, ctx, f, Eq, v.items[i], row)
    else if op == Regex then v.One? && (if IsText(f) then t.rx(v.s, TextOf(row, f)) else t.odd(v, row.state))
    else v.One? && OneHolds(t, ctx, f, op, v.s, row)
  }

  /** What the tree is meant to select. */
  ghost predicate Holds(t: Thruk, ctx: Context, n: Node, row: Row) {
    match n
    case Leaf(f, op, v) => LeafHolds(t, ctx, f, op, v, row)
    case Group(true, conds) => exists c :: c in conds && Holds(t, ctx, c, row)
    case Group(false, conds) => forall c :: c in conds ==> Holds(t, ctx, c, row)
  }

  // ---- Rewriting `in` ------------------------------------------------------------------------------

  predicate IsRewritten(f: Field) {
    IsGroupField(f) || f == State
  }

  function EqLeaves(f: Field, items: seq<string>): (conds: seq<Node>)
    ensures |conds| == |items|
    ensures forall i :: 0 <= i < |items| ==> conds[i] == Leaf(f, Eq, One(items[i]))
  {
    if items == [] then [] else [Leaf(f, Eq, One(items[0]))] + EqLeaves(f, items[1..])
  }

  /** `_expand_group_in`: `in` on a group or state field becomes a disjunction of `eq`. */
  function Expand(n: Node): Node
    decreases n, 1
  {
    match n
    case Leaf(f, op, v) =>
      if IsRewritten(f) && op == In && v.Many? then Group(true, EqLeaves(f, v.items)) else n
    case Group(isOr, conds) => Group(isOr, ExpandAll(conds))
  }

  function ExpandAll(conds: seq<Node>): (r: seq<Node>)
    ensures |r| == |conds|
    decreases conds, 0
  {
    if conds == [] then [] else [Expand(conds[0])] + ExpandAll(conds[1..])
  }

  lemma {:induction false} ExpandAllAt(conds: seq<Node>, i: nat)
    requires i < |conds|
    ensures ExpandAll(conds)[i] == Expand(conds[i])
  {
    if i == 0 {
    } else {
      ExpandAllAt(conds[1..], i - 1);
    }
  }

  /** The rewrite selects the same rows and leaves a well-formed tree with no `in` on those fields. */
  lemma {:induction false} ExpandKeepsMeaning(t: Thruk, ctx: Context, n: Node, row: Row)
    requires WellFormed(n)
    ensures Holds(t, ctx, Expand(n), row) <==> Holds(t, ctx, n, row)
    ensures WellFormed(Expand(n)) && NoGroupIn(Expand(n))
    decreases n
  {
    match n
    case Leaf(f, op, v) =>
      if IsRewritten(f) && op == In {
        var conds := EqLeaves(f, v.items);
        forall i | 0 <= i < |conds|
          ensures Holds(t, ctx, conds[i], row) <==> OneHolds(t, ctx, f, Eq, v.items[i], row)
        {
        }
        if i :| 0 <= i < |v.items| && OneHolds(t, ctx, f, Eq, v.items[i], row) {
          assert conds[i] in conds;
        }
      }
    case Group(isOr, conds) =>
      var r := ExpandAll(conds);
      forall i | 0 <= i < |conds|
        ensures r[i] == Expand(conds[i]) && conds[i] in conds
        ensures Holds(t, ctx, r[i], row) <==> Holds(t, ctx, conds[i], row)
        ensures WellFormed(r[i]) && NoGroupIn(r[i])
      {
        ExpandAllAt(conds, i);
        ExpandKeepsMeaning(t, ctx, conds[i], row);
      }
      SameMembers(t, ctx, conds, r, row);
  }

  lemma SameMembers(t: Thruk, ctx: Context, a: seq<Node>, b: seq<Node>, row: Row)
    requires |a| == |b| && forall i :: 0 <= i < |a| ==> (Holds(t, ctx, a[i], row) <==> Holds(t, ctx, b[i], row))
    ensures (exists c :: c in a && Holds(t, ctx, c, row)) <==> (exists c :: c in b && Holds(t, ctx, c, row))
    ensures (forall c :: c in a ==> Holds(t, ctx, c, row)) <==> (forall c :: c in b ==> Holds(t, ctx, c, row))
  {
    forall i | 0 <= i < |a| ensures a[i] in a && b[i] in b {}
  }

  ghost predicate NoGroupIn(n: Node) {
    match n
    case Leaf(f, op, _) => !(IsRewritten(f) && op == In)
    case Group(_, conds) => forall c :: c in conds ==> NoGroupIn(c)
  }

  /** `_has_or`. */
  predicate HasOr(n: Node) {
    match n
    case Leaf(_, _, _) => false
    case Group(isOr, conds) => isOr || exists c :: c in conds && HasOr(c)
  }
}
