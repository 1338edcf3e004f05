/** When a compiled leaf means what the leaf means. */
module LeafMeaning {
  import opened Basics
  import opened FilterTree
  import opened ThrukQuery
  import opened FilterCompiler
  import Q = QExpression

  // ---- Leaves that come through unchanged ----------------------------------------------------------

  /** A custom variable means the same compiled: its operator is ignored, so it must be `eq`; on
      services its name must not start with HOST; and only services know the host's own variables. */
  predicate FaithfulVariable(ctx: Context, f: Field, op: Op, v: Value)
    requires v.Variable?
  {
    && op == Eq
    && (if f == HostCustomVar then ctx == Services else !(ctx == Services && HOST_PREFIX <= Upper(v.name)))
  }

  /** A leaf whose bracket parameter means what the leaf means. */
  predicate FaithfulBracket(ctx: Context, f: Field, op: Op, v: Value) {
    if v.Variable? then FaithfulVariable(ctx, f, op, v)
    else if f == Since then op == Gte
    else if f == Until then op == Lte
    else if IsText(f) then op != In
    else IsCompare(op)
  }

  /** Service state names are not known to the `q=` path outside services. */
  predicate FaithfulQState(ctx: Context, s: string) {
    ctx == Services || SvcStateInt(Lower(s)) == HostStateInt(Lower(s)) || SvcStateInt(Lower(s)).None? || IsDigits(s)
  }

  /** A leaf whose `q=` atoms mean what the leaf means. */
  predicate FaithfulText(ctx: Context, f: Field, op: Op, v: Value) {
    if v.Variable? then FaithfulVariable(ctx, f, op, v)
    else if f == Since then op == Gte
    else if f == Until then op == Lte
    else if f == State then IsCompare(op) && v.One? && FaithfulQState(ctx, v.s)
    else true
  }

  lemma UpperHost(name: string)
    ensures (HOST_PREFIX + name)[|HOST_PREFIX|..] == name && HOST_PREFIX <= HOST_PREFIX + name
  {
  }

  lemma StateArgIsCode(ctx: Context, s: string)
    ensures ArgCode(BracketState(ctx, s)) == StateCode(ctx, s)
    ensures BracketState(ctx, s).Raw? ==> BracketState(ctx, s).s == s
  {
  }

  predicate ParamMeans(t: Thruk, ctx: Context, f: Field, op: Op, v: Value, row: Row) {
    LeafParam(ctx, f, op, v).Ok? && var (k, p) := LeafParam(ctx, f, op, v).value; ParamHolds(t, ctx, k, p, row)
  }

  lemma VariableParamExact(t: Thruk, ctx: Context, f: Field, op: Op, v: Value, row: Row)
    requires ShapeOk(f, op, v) && v.Variable? && FaithfulBracket(ctx, f, op, v)
    ensures ParamMeans(t, ctx, f, op, v, row) <==> LeafHolds(t, ctx, f, op, v, row)
  {
    UpperHost(Upper(v.name));
  }

  lemma StateParamExact(t: Thruk, ctx: Context, op: Op, v: Value, row: Row)
    requires v.One? && IsCompare(op)
    ensures ParamMeans(t, ctx, State, op, v, row) <==> LeafHolds(t, ctx, State, op, v, row)
  {
    StateArgIsCode(ctx, v.s);
  }

  /** A faithful leaf's parameter selects exactly the leaf's rows. */
  lemma BracketLeafExact(t: Thruk, ctx: Context, f: Field, op: Op, v: Value, row: Row)
    requires ShapeOk(f, op, v) && FaithfulBracket(ctx, f, op, v) && LeafParam(ctx, f, op, v).Ok?
    ensures var (k, p) := LeafParam(ctx, f, op, v).value;
      ParamHolds(t, ctx, k, p, row) <==> LeafHolds(t, ctx, f, op, v, row)
  {
    if v.Variable? {
      VariableParamExact(t, ctx, f, op, v, row);
    } else if f == State {
      StateParamExact(t, ctx, op, v, row);
    }
  }

  /** `in` on a plain field is compiled to an unanchored pattern: it selects every row it should, and
      possibly more. */
  lemma TextInKeepsRows(t: Thruk, ctx: Context, f: Field, v: Value, row: Row)
    requires IsText(f) && ShapeOk(f, In, v) && LeafHolds(t, ctx, f, In, v, row)
    ensures LeafParam(ctx, f, In, v).Ok?
    ensures var (k, p) := LeafParam(ctx, f, In, v).value; ParamHolds(t, ctx, k, p, row)
  {
    var i :| 0 <= i < |v.items| && OneHolds(t, ctx, f, Eq, v.items[i], row);
    assert Occurs(v.items[i], TextOf(row, f));
  }

  lemma {:induction false} LowerDigits(s: string)
    requires forall i :: 0 <= i < |s| ==> IsDigit(s[i])
    ensures Lower(s) == s
  {
    if s == [] {
    } else {
      LowerDigits(s[1..]);
    }
  }

  /** A state code written in digits is the code the maps give it. */
  lemma DigitStates(s: string)
    requires IsDigits(s)
    ensures SvcStateInt(s).Some? ==> SvcStateInt(s).value == DigitsValue(s)
    ensures HostStateInt(s).Some? ==> HostStateInt(s).value == DigitsValue(s)
  {
    assert IsDigit(s[0]);
    if |s| == 1 {
      OneDigit(s);
    }
  }

  lemma QStateIsCode(ctx: Context, s: string)
    requires FaithfulQState(ctx, s)
    ensures ArgCode(QState(ctx, s)) == StateCode(ctx, s)
    ensures QState(ctx, s).Raw? ==> QState(ctx, s).s == s
  {
    if IsDigits(s) {
      LowerDigits(s);
      DigitStates(s);
    }
  }

  lemma VariableAtomExact(t: Thruk, ctx: Context, f: Field, op: Op, v: Value, row: Row)
    requires ShapeOk(f, op, v) && v.Variable? && FaithfulText(ctx, f, op, v)
    ensures AtomHolds(t, ctx, AtomFor(ctx, f, op, v), row) <==> LeafHolds(t, ctx, f, op, v, row)
  {
    UpperHost(Upper(v.name));
  }

  lemma StateAtomExact(t: Thruk, ctx: Context, op: Op, v: Value, row: Row)
    requires v.One? && FaithfulText(ctx, State, op, v)
    ensures AtomHolds(t, ctx, AtomFor(ctx, State, op, v), row) <==> LeafHolds(t, ctx, State, op, v, row)
  {
    QStateIsCode(ctx, v.s);
  }

  lemma GroupAtomExact(t: Thruk, ctx: Context, f: Field, op: Op, v: Value, row: Row)
    requires IsGroupField(f) && op in {Eq, Neq, Gte} && v.One?
    ensures AtomHolds(t, ctx, AtomFor(ctx, f, op, v), row) <==> LeafHolds(t, ctx, f, op, v, row)
  {
  }

  lemma AtomExact(t: Thruk, ctx: Context, f: Field, op: Op, v: Value, row: Row)
    requires ShapeOk(f, op, v) && op != In && FaithfulText(ctx, f, op, v)
    ensures AtomHolds(t, ctx, AtomFor(ctx, f, op, v), row) <==> LeafHolds(t, ctx, f, op, v, row)
  {
    if v.Variable? {
      VariableAtomExact(t, ctx, f, op, v, row);
    } else if f == State {
      StateAtomExact(t, ctx, op, v, row);
    } else if IsGroupField(f) {
      GroupAtomExact(t, ctx, f, op, v, row);
    } else {
      assert v.One?;
    }
  }

  /** A faithful leaf's printed atoms select exactly the leaf's rows. */
  lemma TextLeafExact(t: Thruk, ctx: Context, f: Field, op: Op, v: Value, row: Row)
    requires ShapeOk(f, op, v) && FaithfulText(ctx, f, op, v) && !(IsRewritten(f) && op == In)
    ensures Q.Means(LeafQ(ctx, f, op, v), (a: QAtom) => AtomHolds(t, ctx, a, row)) <==> LeafHolds(t, ctx, f, op, v, row)
  {
    if op == In {
      var atoms := AtomsFor(ctx, f, v.items);
      forall i | 0 <= i < |atoms|
        ensures AtomHolds(t, ctx, atoms[i], row) <==> OneHolds(t, ctx, f, Eq, v.items[i], row)
      {
        AtomExact(t, ctx, f, Eq, One(v.items[i]), row);
      }
    } else {
      AtomExact(t, ctx, f, op, v, row);
    }
  }

  // ---- The conditions on leaves are exact ------------------------------------------------------------

  /** A leaf that is no faithful parameter, with what Thruk makes of texts and a row that tell the two apart. */
  lemma UnfaithfulVariable(ctx: Context, f: Field, op: Op, v: Value) returns (t: Thruk, row: Row)
    requires ShapeOk(f, op, v) && v.Variable? && !FaithfulBracket(ctx, f, op, v)
    ensures ParamMeans(t, ctx, f, op, v, row) && !LeafHolds(t, ctx, f, op, v, row)
  {
    t := Thruk((a, b) => false, (a, b) => false, s => 0, (w, i) => false);
    var name, other := Upper(v.name), v.val + "x";
    if op != Eq {
      row := Row(map[], 0, 0, {}, {}, map[name := v.val, HOST_PREFIX + name := v.val],
                 map[name := v.val, (if |name| >= |HOST_PREFIX| then name[|HOST_PREFIX|..] else name) := v.val]);
      UpperHost(name);
    } else if f == HostCustomVar {
      row := Row(map[], 0, 0, {}, {}, map[HOST_PREFIX + name := v.val], map[name := other]);
    } else {
      row := Row(map[], 0, 0, {}, {}, map[name := other], map[name[|HOST_PREFIX|..] := v.val]);
    }
  }

  lemma UnfaithfulTime(ctx: Context, f: Field, op: Op, v: Value) returns (t: Thruk, row: Row)
    requires ShapeOk(f, op, v) && f in {Since, Until} && !FaithfulBracket(ctx, f, op, v)
    ensures ParamMeans(t, ctx, f, op, v, row) && !LeafHolds(t, ctx, f, op, v, row)
  {
    t := Thruk((a, b) => false, (a, b) => false, s => 0, (w: Value, i: int) => w.Many?);
    var late := if f == Since then 1 else -1;
    row := Row(map[], 0, if op == Neq then 0 else late, {}, {}, map[], map[]);
    if op == In {
      forall i | 0 <= i < |v.items| ensures !OneHolds(t, ctx, f, Eq, v.items[i], row) {
      }
    }
  }

  function Together(items: seq<string>): string {
    if items == [] then "x" else items[0] + Together(items[1..])
  }

  lemma {:induction false} LongerThanEach(items: seq<string>)
    ensures |Together(items)| > 0 && forall s :: s in items ==> |s| < |Together(items)|
  {
    if items == [] {
    } else {
      LongerThanEach(items[1..]);
    }
  }

  lemma UnfaithfulList(ctx: Context, f: Field, v: Value) returns (t: Thruk, row: Row)
    requires ShapeOk(f, In, v) && IsText(f)
    ensures ParamMeans(t, ctx, f, In, v, row) && !LeafHolds(t, ctx, f, In, v, row)
  {
    t := Thruk((a, b) => false, (a, b) => false, s => 0, (w, i) => false);
    var text := Together(v.items);
    row := Row(map[f := text], 0, 0, {}, {}, map[], map[]);
    LongerThanEach(v.items);
    assert v.items[0] <= text && Occurs(v.items[0], text);
    forall i | 0 <= i < |v.items| ensures !OneHolds(t, ctx, f, Eq, v.items[i], row) {
      assert v.items[i] in v.items;
    }
  }

  /** A leaf's parameter means what the leaf means, on every data set and whatever Thruk makes of texts, if and
      only if the leaf is faithful; a leaf that is not can add rows. */
  lemma FaithfulExactly(ctx: Context, f: Field, op: Op, v: Value)
    requires ShapeOk(f, op, v) && LeafParam(ctx, f, op, v).Ok?
    ensures (forall t, row :: ParamMeans(t, ctx, f, op, v, row) <==> LeafHolds(t, ctx, f, op, v, row))
        <==> FaithfulBracket(ctx, f, op, v)
  {
    if FaithfulBracket(ctx, f, op, v) {
      forall t, row ensures ParamMeans(t, ctx, f, op, v, row) <==> LeafHolds(t, ctx, f, op, v, row) {
        BracketLeafExact(t, ctx, f, op, v, row);
      }
    } else if v.Variable? {
      var t, row := UnfaithfulVariable(ctx, f, op, v);
    } else if f in {Since, Until} {
      var t, row := UnfaithfulTime(ctx, f, op, v);
    } else {
      var t, row := UnfaithfulList(ctx, f, v);
    }
  }

  ghost predicate TextMeans(t: Thruk, ctx: Context, f: Field, op: Op, v: Value, row: Row) {
    Q.Means(LeafQ(ctx, f, op, v), (a: QAtom) => AtomHolds(t, ctx, a, row))
  }

  lemma TextAsParam(t: Thruk, ctx: Context, f: Field, op: Op, v: Value, row: Row)
    requires ShapeOk(f, op, v) && (v.Variable? || f in {Since, Until})
    ensures TextMeans(t, ctx, f, op, v, row) <==> ParamMeans(t, ctx, f, op, v, row)
  {
  }

  /** A regular expression on a state that shows no code: Thruk is handed the same text either way. */
  predicate IsOpaqueState(ctx: Context, f: Field, op: Op, v: Value) {
    f == State && op == Regex && v.One? && ArgCode(QState(ctx, v.s)).None?
  }

  lemma OpaqueStateMeans(t: Thruk, ctx: Context, v: Value, row: Row)
    requires IsOpaqueState(ctx, State, Regex, v)
    ensures TextMeans(t, ctx, State, Regex, v, row) <==> LeafHolds(t, ctx, State, Regex, v, row)
  {
  }

  lemma UnfaithfulStateRegex(ctx: Context, v: Value) returns (t: Thruk, row: Row)
    requires v.One? && !IsOpaqueState(ctx, State, Regex, v)
    ensures TextMeans(t, ctx, State, Regex, v, row) && !LeafHolds(t, ctx, State, Regex, v, row)
  {
    t := Thruk((a, b) => false, (a, b) => false, s => 0, (w, i) => false);
    row := Row(map[], ArgCode(QState(ctx, v.s)).value, 0, {}, {}, map[], map[]);
  }

  /** A service state name outside services: the text leaves it to Thruk, the leaf means its code. */
  lemma UnfaithfulStateName(ctx: Context, op: Op, v: Value) returns (t: Thruk, row: Row)
    requires v.One? && IsCompare(op) && !FaithfulQState(ctx, v.s)
    ensures TextMeans(t, ctx, State, op, v, row) && !LeafHolds(t, ctx, State, op, v, row)
  {
    var code := SvcStateInt(Lower(v.s)).value;
    t := Thruk((a, b) => false, (a, b) => false, s => 0, (w, i) => true);
    row := Row(map[], if op == Neq then code else if op == Gte then code - 1 else code + 1, 0, {}, {}, map[], map[]);
    NameHasNoHostCode(v.s);
  }

  lemma NameHasNoHostCode(s: string)
    requires SvcStateInt(Lower(s)).Some? && SvcStateInt(Lower(s)) != HostStateInt(Lower(s)) && !IsDigits(s)
    ensures HostStateInt(Lower(s)).None?
  {
  }

  /** A leaf's `q=` text means what the leaf means, on every data set and whatever Thruk makes of texts, if and
      only if the leaf is faithful as text or leaves its state to Thruk on both sides. */
  lemma TextFaithfulExactly(ctx: Context, f: Field, op: Op, v: Value)
    requires ShapeOk(f, op, v) && !(IsRewritten(f) && op == In)
    ensures (forall t, row :: TextMeans(t, ctx, f, op, v, row) <==> LeafHolds(t, ctx, f, op, v, row))
        <==> FaithfulText(ctx, f, op, v) || IsOpaqueState(ctx, f, op, v)
  {
    if FaithfulText(ctx, f, op, v) {
      forall t, row ensures TextMeans(t, ctx, f, op, v, row) <==> LeafHolds(t, ctx, f, op, v, row) {
        TextLeafExact(t, ctx, f, op, v, row);
      }
    } else if IsOpaqueState(ctx, f, op, v) {
      forall t, row ensures TextMeans(t, ctx, f, op, v, row) <==> LeafHolds(t, ctx, f, op, v, row) {
        OpaqueStateMeans(t, ctx, v, row);
      }
    } else if v.Variable? {
      var t, row := UnfaithfulVariable(ctx, f, op, v);
      TextAsParam(t, ctx, f, op, v, row);
    } else if f in {Since, Until} {
      var t, row := UnfaithfulTime(ctx, f, op, v);
      TextAsParam(t, ctx, f, op, v, row);
    } else if op == Regex {
      var t, row := UnfaithfulStateRegex(ctx, v);
    } else {
      var t, row := UnfaithfulStateName(ctx, op, v);
    }
  }
}
