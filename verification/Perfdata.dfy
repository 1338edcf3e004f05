/** The performance-data parser and the threshold ranges (perfdata.py), after the sections
    "Performance data" and "Threshold and ranges" of the Nagios Plugin Development Guidelines.

    The regular expressions are written out as the scans they perform; each is deterministic, so the
    first match is the only one. */
module Perfdata {
  import opened Basics
  import opened Texts
  import opened Numbers

  // ---- Characters -------------------------------------------------------------------------------

  predicate NotQuote(c: char) {
    c != '\''
  }

  predicate IsLabelChar(c: char) {
    c != '\'' && c != '=' && !IsSpace(c)
  }

  // ---- Ranges -----------------------------------------------------------------------------------

  datatype Bound = NegInfinity | Finite(r: real) | Infinity

  datatype Range = Range(low: Bound, high: Bound, alertInside: bool)

  /** `value < bound` and `value > bound`. */
  predicate Below(v: real, b: Bound) {
    b.Infinity? || (b.Finite? && v < b.r)
  }

  predicate AboveBound(v: real, b: Bound) {
    b.NegInfinity? || (b.Finite? && v > b.r)
  }

  /** `_range_bound`: one side of a range. */
  function RangeBound(token: string, empty: Bound, tilde: Bound): Option<Bound> {
    var t := Strip(token);
    if t == [] then Some(empty)
    else if t == "~" then Some(tilde)
    else
      match NumberOf(t)
      case None => None
      case Some(n) => Some(Finite(n.Value()))
  }

  predicate NotColon(c: char) {
    c != ':'
  }

  /** `parse_range`. An absent specification is the empty text. */
  function ParseRange(spec: string): Option<Range> {
    var s := Strip(spec);
    if s == [] then None
    else
      var inside := s[0] == '@';
      ParseBody(if inside then s[1..] else s, inside)
  }

  /** What is left after the `@` mark: split at the first colon, if there is one. */
  function ParseBody(body: string, inside: bool): Option<Range> {
    var colon := Prefix(body, NotColon);
    var low := if colon < |body| then RangeBound(body[..colon], Finite(0.0), NegInfinity) else Some(Finite(0.0));
    var high := RangeBound(if colon < |body| then body[colon + 1..] else body, Infinity, Infinity);
    if low.None? || high.None? then None else Some(Range(low.value, high.value, inside))
  }

  /** `breaches_range`. */
  predicate Breaches(value: Option<Number>, spec: string) {
    value.Some? && ParseRange(spec).Some? && BreachesParsed(value.value.Value(), ParseRange(spec).value)
  }

  predicate BreachesParsed(v: real, range: Range) {
    if range.alertInside then !Below(v, range.low) && !AboveBound(v, range.high)
    else Below(v, range.low) || AboveBound(v, range.high)
  }

  /** One side of a printed range. */
  datatype Limit = Open | Tilde | At(token: string)

  function PrintLimit(l: Limit): string {
    match l
    case Open => ""
    case Tilde => "~"
    case At(token) => token
  }

  predicate IsNumberText(s: string) {
    NumberOf(s).Some? && forall i :: 0 <= i < |s| ==> !IsSpace(s[i]) && s[i] !in ":@~"
  }

  predicate IsLimit(l: Limit) {
    l.At? ==> IsNumberText(l.token)
  }

  /** The value a side stands for. */
  function LimitValue(l: Limit, open: Bound, tilde: Bound): Bound
    requires IsLimit(l)
  {
    match l
    case Open => open
    case Tilde => tilde
    case At(token) => Finite(NumberOf(token).value.Value())
  }

  /** The forms of the specification: `end`, `start:end`, and either with `@` in front. */
  datatype RangeForm = UpTo(end: Limit, inside: bool) | Between(start: Limit, end: Limit, inside: bool)

  function PrintRange(f: RangeForm): string {
    (if f.inside then "@" else "") + PrintBody(f)
  }

  predicate IsForm(f: RangeForm) {
    IsLimit(f.end) && (f.Between? ==> IsLimit(f.start)) && f != UpTo(Open, false)
  }

  lemma LimitText(l: Limit)
    requires IsLimit(l)
    ensures Every(PrintLimit(l), NotColon) && Every(PrintLimit(l), NotSpace)
    ensures forall i :: 0 <= i < |PrintLimit(l)| ==> PrintLimit(l)[i] != '@'
    ensures l.At? ==> l.token != [] && l.token != "~"
  {
    assert Strip("") == "";
    assert "~"[0] == '~';
  }

  lemma LimitParses(l: Limit, open: Bound, tilde: Bound)
    requires IsLimit(l)
    ensures RangeBound(PrintLimit(l), open, tilde) == Some(LimitValue(l, open, tilde))
  {
    LimitText(l);
    StripKeeps(PrintLimit(l));
  }

  function PrintBody(f: RangeForm): string {
    match f
    case UpTo(end, _) => PrintLimit(end)
    case Between(start, end, _) => PrintLimit(start) + ":" + PrintLimit(end)
  }

  /** The range a form stands for. */
  function FormRange(f: RangeForm): Range
    requires IsForm(f)
  {
    Range(if f.UpTo? then Finite(0.0) else LimitValue(f.start, Finite(0.0), NegInfinity),
          LimitValue(f.end, Infinity, Infinity), f.inside)
  }

  lemma SplitAtColon(start: string, end: string)
    requires Every(start, NotColon)
    ensures var body := start + ":" + end;
      && Prefix(body, NotColon) == |start| < |body|
      && body[..|start|] == start && body[|start| + 1..] == end
  {
    PrefixIs(start, ":" + end, NotColon);
    assert start + ":" + end == start + (":" + end);
  }

  lemma BodyParses(f: RangeForm)
    requires IsForm(f)
    ensures ParseBody(PrintBody(f), f.inside) == Some(FormRange(f))
  {
    LimitText(f.end);
    LimitParses(f.end, Infinity, Infinity);
    if f.UpTo? {
      PrefixIs(PrintLimit(f.end), [], NotColon);
      assert PrintLimit(f.end) + [] == PrintLimit(f.end);
    } else {
      LimitText(f.start);
      LimitParses(f.start, Finite(0.0), NegInfinity);
      SplitAtColon(PrintLimit(f.start), PrintLimit(f.end));
    }
  }

  lemma BodyText(f: RangeForm)
    requires IsForm(f)
    ensures Every(PrintBody(f), NotSpace)
    ensures PrintBody(f) != [] ==> PrintBody(f)[0] != '@'
    ensures PrintBody(f) == [] ==> f.inside
  {
    LimitText(f.end);
    if f.Between? {
      LimitText(f.start);
      EveryAppend(PrintLimit(f.start), ":", NotSpace);
      EveryAppend(PrintLimit(f.start) + ":", PrintLimit(f.end), NotSpace);
    }
  }

  lemma UnmarkedParses(body: string)
    requires body != [] && Every(body, NotSpace) && body[0] != '@'
    ensures ParseRange(body) == ParseBody(body, false)
  {
    StripKeeps(body);
  }

  lemma MarkedParses(body: string)
    requires Every(body, NotSpace)
    ensures ParseRange("@" + body) == ParseBody(body, true)
  {
    var s := "@" + body;
    assert s[0] == '@' && s[1..] == body;
    forall i | 0 <= i < |s| ensures NotSpace(s[i]) {
      if i > 0 {
        assert s[i] == body[i - 1];
      }
    }
    StripKeeps(s);
  }

  /** Parsing undoes printing, for every form of the specification, with any number text in either
      place. */
  lemma ParseUndoesPrint(f: RangeForm)
    requires IsForm(f)
    ensures ParseRange(PrintRange(f)) == Some(FormRange(f))
  {
    BodyParses(f);
    BodyText(f);
    if f.inside {
      MarkedParses(PrintBody(f));
    } else {
      UnmarkedParses(PrintBody(f));
    }
  }

  /** So a value breaches a printed range exactly as the guidelines say: outside it, or, with `@`,
      inside it, the ends included. */
  lemma BreachesPrinted(f: RangeForm, v: Number)
    requires IsForm(f)
    ensures Breaches(Some(v), PrintRange(f)) <==>
      var within := !Below(v.Value(), FormRange(f).low) && !AboveBound(v.Value(), FormRange(f).high);
      (within <==> f.inside)
  {
    ParseUndoesPrint(f);
  }

  // ---- Proximity --------------------------------------------------------------------------------

  function Abs(r: real): real {
    if r < 0.0 then -r else r
  }

  /** What distances are measured against: the width of the range, or the size of its one finite end. */
  function Span(range: Range): real {
    match (range.low, range.high)
    case (Finite(low), Finite(high)) => high - low
    case (_, Finite(high)) => Abs(high)
    case (Finite(low), _) => Abs(low)
    case (_, _) => 0.0
  }

  /** The distance of a value that does not breach to the nearest finite end that would make it breach. */
  function Distance(v: real, range: Range): Option<real> {
    if range.alertInside then
      if Below(v, range.low) then (if range.low.Finite? then Some(range.low.r - v) else None)
      else (if range.high.Finite? then Some(v - range.high.r) else None)
    else
      match (range.low, range.high)
      case (Finite(low), Finite(high)) => Some(if v - low < high - v then v - low else high - v)
      case (Finite(low), _) => Some(v - low)
      case (_, Finite(high)) => Some(high - v)
      case (_, _) => None
  }

  function ProximityTo(v: real, range: Range): Option<real> {
    if BreachesParsed(v, range) then Some(0.0)
    else
      var dist := Distance(v, range);
      if dist.None? || Span(range) <= 0.0 then None
      else
        var p := dist.value / Span(range) * 100.0;
        Some(if p < 0.0 then 0.0 else p)
  }

  /** `proximity_percent`, before floating-point rounding. */
  function Proximity(value: Option<Number>, spec: string): Option<real> {
    if value.None? || ParseRange(spec).None? then None else ProximityTo(value.value.Value(), ParseRange(spec).value)
  }

  /** The value sits exactly on a finite end of the range. */
  predicate OnEdge(v: real, range: Range) {
    range.low == Finite(v) || range.high == Finite(v)
  }

  lemma QuotientZero(d: real, s: real)
    requires d >= 0.0 && s > 0.0
    ensures d / s * 100.0 >= 0.0
    ensures d / s * 100.0 == 0.0 <==> d == 0.0
  {
    assert d / s * s == d;
  }

  /** Short of breaching, the distance is never negative, and zero only on an end of a safe range. */
  lemma DistanceZeroExactly(v: real, range: Range)
    requires !BreachesParsed(v, range) && Distance(v, range).Some?
    ensures Distance(v, range).value >= 0.0
    ensures Distance(v, range).value == 0.0 <==> !range.alertInside && OnEdge(v, range)
  {
  }

  /** Where the distance is undefined there is nothing to sit on. */
  lemma NoDistanceNoSpan(v: real, range: Range)
    requires !BreachesParsed(v, range) && !range.alertInside && Distance(v, range).None?
    ensures !OnEdge(v, range)
  {
  }

  lemma ZeroProximityToExactly(v: real, range: Range)
    ensures ProximityTo(v, range) == Some(0.0) <==>
      BreachesParsed(v, range) || (!range.alertInside && OnEdge(v, range) && Span(range) > 0.0)
  {
    if !BreachesParsed(v, range) {
      if Distance(v, range).Some? {
        DistanceZeroExactly(v, range);
        if Span(range) > 0.0 {
          QuotientZero(Distance(v, range).value, Span(range));
        }
      } else if !range.alertInside {
        NoDistanceNoSpan(v, range);
      }
    }
  }

  /** 0 % is documented to mean "already breached"; it means that, or a value exactly on an end of a
      range it must stay within. */
  lemma ZeroProximityExactly(value: Option<Number>, spec: string)
    ensures Proximity(value, spec) == Some(0.0) <==>
      Breaches(value, spec) || (value.Some? && ParseRange(spec).Some? &&
        var v, range := value.value.Value(), ParseRange(spec).value;
        !range.alertInside && OnEdge(v, range) && Span(range) > 0.0)
  {
    if value.Some? && ParseRange(spec).Some? {
      ZeroProximityToExactly(value.value.Value(), ParseRange(spec).value);
    }
  }

  lemma QuotientIs(d: real, s: real)
    requires s > 0.0
    ensures d / s * 100.0 * s == 100.0 * d
  {
    assert d / s * s == d;
  }

  /** An end of the range that can be reached. */
  predicate IsEnd(range: Range, e: real) {
    range.low == Finite(e) || range.high == Finite(e)
  }

  predicate RightWayRound(range: Range) {
    range.low.Finite? && range.high.Finite? ==> range.low.r <= range.high.r
  }

  lemma DistanceToNearestEnd(v: real, range: Range) returns (e: real)
    requires !BreachesParsed(v, range) && Distance(v, range).Some? && RightWayRound(range)
    ensures IsEnd(range, e) && Distance(v, range).value == Abs(v - e)
    ensures forall f :: IsEnd(range, f) ==> Abs(v - e) <= Abs(v - f)
  {
    var d := Distance(v, range).value;
    if range.low.Finite? && d == Abs(v - range.low.r) {
      e := range.low.r;
    } else {
      e := range.high.r;
    }
  }

  /** Short of breaching, the proximity is the distance to the nearest finite end, in percent of the width of the
      range or, with one finite end, of that end's size. */
  lemma ProximityIsRelativeDistance(v: real, range: Range) returns (e: real)
    requires !BreachesParsed(v, range) && ProximityTo(v, range).Some? && RightWayRound(range)
    ensures IsEnd(range, e) && forall f :: IsEnd(range, f) ==> Abs(v - e) <= Abs(v - f)
    ensures var p := ProximityTo(v, range).value;
      if range.low.Finite? && range.high.Finite? then p * (range.high.r - range.low.r) == 100.0 * Abs(v - e)
      else p * Abs(e) == 100.0 * Abs(v - e)
  {
    e := DistanceToNearestEnd(v, range);
    var d, s := Distance(v, range).value, Span(range);
    DistanceZeroExactly(v, range);
    QuotientZero(d, s);
    QuotientIs(d, s);
  }

  lemma BoundsAreProper(spec: string)
    ensures ParseRange(spec).Some? ==>
      ParseRange(spec).value.low != Infinity && ParseRange(spec).value.high != NegInfinity
  {
  }

  /** A proximity is given exactly where the value breaches already or there is something to measure against: a width
      above 0 between two finite ends, or one finite end other than 0. */
  lemma ProximityGivenExactly(value: Number, spec: string)
    requires ParseRange(spec).Some?
    ensures var range := ParseRange(spec).value;
      Proximity(Some(value), spec).Some? <==>
        || Breaches(Some(value), spec)
        || (range.low.Finite? && range.high.Finite? && range.low.r < range.high.r)
        || (range.low.Finite? && !range.high.Finite? && range.low.r != 0.0)
        || (!range.low.Finite? && range.high.Finite? && range.high.r != 0.0)
  {
    BoundsAreProper(spec);
    MeasuredExactly(value.Value(), ParseRange(spec).value);
  }

  lemma MeasuredExactly(v: real, range: Range)
    requires range.low != Infinity && range.high != NegInfinity
    ensures ProximityTo(v, range).Some? <==>
      || BreachesParsed(v, range)
      || (range.low.Finite? && range.high.Finite? && range.low.r < range.high.r)
      || (range.low.Finite? && !range.high.Finite? && range.low.r != 0.0)
      || (!range.low.Finite? && range.high.Finite? && range.high.r != 0.0)
  {
  }

  lemma QuotientHalf(d: real, s: real)
    requires s > 0.0 && 2.0 * d <= s
    ensures d / s * 100.0 <= 50.0
  {
    var q := d / s;
    assert q * s == d;
    assert q > 0.5 ==> q * s > 0.5 * s;
  }

  lemma HalfAtMost(v: real, range: Range)
    requires !range.alertInside && range.low.Finite? && range.high.Finite?
    requires !BreachesParsed(v, range) && Span(range) > 0.0
    ensures Distance(v, range).Some? && 0.0 <= Distance(v, range).value
    ensures 2.0 * Distance(v, range).value <= Span(range)
  {
    var d := Distance(v, range).value;
    assert d <= v - range.low.r && d <= range.high.r - v;
  }

  lemma QuotientPositive(d: real, s: real)
    requires s > 0.0 && 0.0 <= d
    ensures 0.0 <= d / s * 100.0
  {
  }

  lemma ProximityToAtMostHalf(v: real, range: Range)
    requires !range.alertInside && range.low.Finite? && range.high.Finite?
    ensures var p := ProximityTo(v, range); p.Some? ==> 0.0 <= p.value <= 50.0
  {
    if !BreachesParsed(v, range) && Span(range) > 0.0 {
      HalfAtMost(v, range);
      var d := Distance(v, range).value;
      QuotientHalf(d, Span(range));
      QuotientPositive(d, Span(range));
    }
  }

  /** Within a range with two ends, a value is never further than half the range from breaching. */
  lemma ProximityAtMostHalf(value: Option<Number>, spec: string)
    requires ParseRange(spec).Some?
    requires var range := ParseRange(spec).value; !range.alertInside && range.low.Finite? && range.high.Finite?
    ensures var p := Proximity(value, spec); p.Some? ==> 0.0 <= p.value <= 50.0
  {
    if value.Some? {
      ProximityToAtMostHalf(value.value.Value(), ParseRange(spec).value);
    }
  }

  // ---- Metrics ----------------------------------------------------------------------------------

  datatype Metric = Metric(name: string, value: Option<Number>, uom: string, warn: string, crit: string,
                           min: Option<Number>, max: Option<Number>, breached: bool)

  /** A match at the start of a text: the label, what follows `=`, and how far the match reaches. */
  datatype Match = Match(name: string, rest: string, end: nat)

  /** `_METRIC_RE` tried at the start of `s`: a quoted label of any characters but the quote, or an
      unquoted one without quote, `=` and white space; then `=`; then characters up to white space. */
  function MatchAt(s: string): Option<Match> {
    if s == [] then None
    else if s[0] == '\'' then
      var n := Prefix(s[1..], NotQuote);
      if n + 1 < |s| then MatchRest(s[1..n + 1], s, n + 2) else None
    else
      var n := Prefix(s, IsLabelChar);
      if n > 0 then MatchRest(s[..n], s, n) else None
  }

  /** The label has been read up to `at`: `=` and at least one more character must follow. */
  function MatchRest(name: string, s: string, at: nat): Option<Match>
    requires at <= |s|
  {
    if at < |s| && s[at] == '=' && Prefix(s[at + 1..], NotSpace) > 0 then
      var n := Prefix(s[at + 1..], NotSpace);
      Some(Match(name, s[at + 1..at + 1 + n], at + 1 + n))
    else None
  }

  lemma MatchReaches(s: string)
    requires MatchAt(s).Some?
    ensures 0 < MatchAt(s).value.end <= |s|
  {
  }

  predicate NotSemicolon(c: char) {
    c != ';'
  }

  /** `split(";")`. */
  function Split(s: string): (fields: seq<string>)
    ensures fields != []
    decreases |s|
  {
    var n := Prefix(s, NotSemicolon);
    if n == |s| then [s] else [s[..n]] + Split(s[n + 1..])
  }

  function Join(fields: seq<string>): string {
    if fields == [] then "" else if |fields| == 1 then fields[0] else fields[0] + ";" + Join(fields[1..])
  }

  /** A field by number; the empty text when it is missing. */
  function Field(fields: seq<string>, i: nat): string {
    if i < |fields| then Strip(fields[i]) else ""
  }

  /** The number a value starts with, and the unit after it. */
  function ValueOf(token: string): (Option<Number>, string) {
    var t := Strip(token);
    var n := NumberLength(t);
    if n == 0 then (None, "") else (NumberOf(t[..n]), Strip(t[n..]))
  }

  /** A metric breaches when its value breaches either threshold. */
  function MakeMetric(name: string, value: Option<Number>, uom: string, warn: string, crit: string,
                      min: Option<Number>, max: Option<Number>): Metric {
    Metric(name, value, uom, warn, crit, min, max, Breaches(value, warn) || Breaches(value, crit))
  }

  function LimitField(fields: seq<string>, i: nat): Option<Number> {
    if i < |fields| then NumberOf(fields[i]) else None
  }

  function ValueField(fields: seq<string>): (Option<Number>, string) {
    ValueOf(if fields != [] then fields[0] else "")
  }

  function MetricOf(name: string, fields: seq<string>): Metric {
    MakeMetric(name, ValueField(fields).0, ValueField(fields).1, Field(fields, 1), Field(fields, 2),
               LimitField(fields, 3), LimitField(fields, 4))
  }

  /** `parse_metric`: the whole text must be one datum. */
  function ParseMetric(token: string): Option<Metric> {
    var t := Strip(token);
    match MatchAt(t)
    case None => None
    case Some(m) => if m.end == |t| then Some(MetricOf(m.name, Split(m.rest))) else None
  }

  function OneMetric(token: string): seq<Metric> {
    var metric := ParseMetric(token);
    if metric.Some? then [metric.value] else []
  }

  /** The matches of `finditer`, left to right, each read again by `ParseMetric`. */
  function Metrics(s: string): seq<Metric>
    decreases |s|
  {
    if s == [] then []
    else
      match MatchAt(s)
      case None => Metrics(s[1..])
      case Some(m) =>
        MatchReaches(s);
        OneMetric(s[..m.end]) + Metrics(s[m.end..])
  }

  lemma MetricsAt(s: string, m: Match)
    requires s != [] && MatchAt(s) == Some(m)
    ensures 0 < m.end <= |s| && Metrics(s) == OneMetric(s[..m.end]) + Metrics(s[m.end..])
  {
    MatchReaches(s);
  }

  lemma Regrouped<T>(a: seq<T>, b: seq<T>, c: seq<T>)
    ensures a + (b + c) == (a + b) + c
  {
  }

  method ParsePerfdata(perfData: string) returns (metrics: seq<Metric>)
    ensures metrics == Metrics(perfData)
  {
    metrics := [];
    var rest := perfData;
    while rest != []
      invariant metrics + Metrics(rest) == Metrics(perfData)
      decreases |rest|
    {
      match MatchAt(rest) {
        case None =>
          rest := rest[1..];
        case Some(m) =>
          MetricsAt(rest, m);
          Regrouped(metrics, OneMetric(rest[..m.end]), Metrics(rest[m.end..]));
          metrics := metrics + OneMetric(rest[..m.end]);
          rest := rest[m.end..];
      }
    }
  }

  // ---- Parsing undoes printing ------------------------------------------------------------------

  lemma SplitFirst(first: string, rest: string)
    requires Every(first, NotSemicolon)
    ensures Split(first + ";" + rest) == [first] + Split(rest)
  {
    var s := first + ";" + rest;
    PrefixIs(first, ";" + rest, NotSemicolon);
    assert s == first + (";" + rest);
    assert s[..|first|] == first && s[|first| + 1..] == rest;
  }

  lemma {:induction false} SplitUndoesJoin(fields: seq<string>)
    requires fields != [] && forall i :: 0 <= i < |fields| ==> Every(fields[i], NotSemicolon)
    ensures Split(Join(fields)) == fields
  {
    if |fields| == 1 {
      PrefixIs(fields[0], [], NotSemicolon);
      assert fields[0] + [] == fields[0];
    } else {
      SplitUndoesJoin(fields[1..]);
      SplitFirst(fields[0], Join(fields[1..]));
    }
  }

  /** A datum to print: a label, with or without quotes, and the fields after `=`. */
  datatype Datum = Datum(quoted: bool, name: string, fields: seq<string>)

  /** Quoted labels may hold anything but the quote; unquoted ones no white space and no `=` either.
      Fields hold neither white space nor semicolons, and are not all there is to an empty text. */
  ghost predicate IsDatum(d: Datum) {
    && (if d.quoted then Every(d.name, NotQuote) else d.name != [] && Every(d.name, IsLabelChar))
    && d.fields != [] && d.fields != [""]
    && (forall i :: 0 <= i < |d.fields| ==> Every(d.fields[i], NotSpace) && Every(d.fields[i], NotSemicolon))
  }

  function PrintDatum(d: Datum): string {
    (if d.quoted then "'" + d.name + "'" else d.name) + "=" + Join(d.fields)
  }

  lemma {:induction false} JoinText(fields: seq<string>)
    requires fields != [] && fields != [""]
    requires forall i :: 0 <= i < |fields| ==> Every(fields[i], NotSpace)
    ensures Join(fields) != [] && Every(Join(fields), NotSpace)
  {
    if |fields| > 1 {
      if fields[1..] != [""] {
        JoinText(fields[1..]);
      }
      EveryAppend(fields[0], ";", NotSpace);
      EveryAppend(fields[0] + ";", Join(fields[1..]), NotSpace);
    }
  }

  /** Where one datum ends: at the end of the text or at white space. */
  predicate Ends(after: string) {
    after == [] || IsSpace(after[0])
  }

  lemma RestMatches(name: string, head: string, rest: string, after: string)
    requires rest != [] && Every(rest, NotSpace) && Ends(after)
    ensures MatchRest(name, head + "=" + rest + after, |head|) == Some(Match(name, rest, |head| + 1 + |rest|))
  {
    var s := head + "=" + rest + after;
    assert s[|head| + 1..] == rest + after;
    PrefixIs(rest, after, NotSpace);
    assert s[|head| + 1..|head| + 1 + |rest|] == rest;
  }

  lemma QuotedMatches(name: string, rest: string, after: string)
    requires Every(name, NotQuote) && rest != [] && Every(rest, NotSpace) && Ends(after)
    ensures MatchAt("'" + name + "'" + "=" + rest + after) == Some(Match(name, rest, |name| + 3 + |rest|))
  {
    var head := "'" + name + "'";
    var s := head + "=" + rest + after;
    RestMatches(name, head, rest, after);
    var tail := "'" + "=" + rest + after;
    assert s[1..] == name + tail;
    PrefixIs(name, tail, NotQuote);
    assert s[1..|name| + 1] == name;
  }

  lemma UnquotedMatches(name: string, rest: string, after: string)
    requires name != [] && Every(name, IsLabelChar) && rest != [] && Every(rest, NotSpace) && Ends(after)
    ensures MatchAt(name + "=" + rest + after) == Some(Match(name, rest, |name| + 1 + |rest|))
  {
    var s := name + "=" + rest + after;
    RestMatches(name, name, rest, after);
    var tail := "=" + rest + after;
    assert s == name + tail;
    PrefixIs(name, tail, IsLabelChar);
    assert s[..|name|] == name;
    assert IsLabelChar(s[0]);
  }

  /** A printed datum is matched whole, whatever follows it. */
  lemma DatumMatches(d: Datum, after: string)
    requires IsDatum(d) && Ends(after)
    ensures MatchAt(PrintDatum(d) + after) == Some(Match(d.name, Join(d.fields), |PrintDatum(d)|))
  {
    JoinText(d.fields);
    if d.quoted {
      QuotedMatches(d.name, Join(d.fields), after);
    } else {
      UnquotedMatches(d.name, Join(d.fields), after);
    }
  }

  /** And, read on its own, it is the metric of its label and fields. */
  lemma DatumParses(d: Datum)
    requires IsDatum(d)
    ensures ParseMetric(PrintDatum(d)) == Some(MetricOf(d.name, d.fields))
  {
    DatumMatches(d, []);
    assert PrintDatum(d) + [] == PrintDatum(d);
    SplitUndoesJoin(d.fields);
    DatumEnds(d);
    StripKeeps(PrintDatum(d));
  }

  lemma DatumEnds(d: Datum)
    requires IsDatum(d)
    ensures var s := PrintDatum(d); s != [] && !IsSpace(s[0]) && !IsSpace(s[|s| - 1])
  {
    JoinText(d.fields);
    var s, rest := PrintDatum(d), Join(d.fields);
    assert s[|s| - 1] == rest[|rest| - 1];
    if !d.quoted {
      assert IsLabelChar(d.name[0]) && s[0] == d.name[0];
    } else {
      assert s[0] == '\'';
    }
  }

  lemma MetricsOfDatum(d: Datum, after: string)
    requires IsDatum(d) && Ends(after)
    ensures Metrics(PrintDatum(d) + after) == [MetricOf(d.name, d.fields)] + Metrics(after)
  {
    var s := PrintDatum(d);
    DatumMatches(d, after);
    DatumParses(d);
    assert (s + after)[..|s|] == s && (s + after)[|s|..] == after;
  }

  // ---- Whole texts ------------------------------------------------------------------------------

  /** A text is made of data and of words that are none: no quote and no `=` in them. */
  datatype Item = Data(datum: Datum) | Junk(word: string)

  ghost predicate IsItem(x: Item) {
    match x
    case Data(d) => IsDatum(d)
    case Junk(word) => Every(word, IsLabelChar)
  }

  function PrintItem(x: Item): string {
    match x
    case Data(d) => PrintDatum(d)
    case Junk(word) => word
  }

  /** The items with a blank after each. */
  function PrintAll(items: seq<Item>): string {
    if items == [] then [] else PrintItem(items[0]) + " " + PrintAll(items[1..])
  }

  function MetricsIn(items: seq<Item>): seq<Metric> {
    if items == [] then []
    else (if items[0].Data? then [MetricOf(items[0].datum.name, items[0].datum.fields)] else []) + MetricsIn(items[1..])
  }

  /** A word of junk is skipped, character by character, up to the white space after it. */
  lemma {:induction false} JunkIsSkipped(word: string, after: string)
    requires Every(word, IsLabelChar) && Ends(after)
    ensures Metrics(word + after) == Metrics(after)
  {
    if word == [] {
      assert word + after == after;
    } else {
      assert (word + after)[1..] == word[1..] + after;
      JunkIsSkipped(word[1..], after);
      PrefixIs(word, after, IsLabelChar);
      assert IsLabelChar((word + after)[0]);
      assert MatchAt(word + after) == None;
    }
  }

  lemma BlankIsSkipped(after: string)
    ensures Metrics(" " + after) == Metrics(after)
  {
    assert (" " + after)[1..] == after;
    assert MatchAt(" " + after) == None;
  }

  /** Parsing undoes printing: the data come back in order, each with its label and fields, and junk in
      between costs no neighbour. */
  lemma {:induction false} ParseUndoesPrintAll(items: seq<Item>)
    requires forall i :: 0 <= i < |items| ==> IsItem(items[i])
    ensures Metrics(PrintAll(items)) == MetricsIn(items)
  {
    if items == [] {
    } else {
      ParseUndoesPrintAll(items[1..]);
      var after := " " + PrintAll(items[1..]);
      BlankIsSkipped(PrintAll(items[1..]));
      assert PrintAll(items) == PrintItem(items[0]) + after;
      match items[0]
      case Data(d) => MetricsOfDatum(d, after);
      case Junk(word) => JunkIsSkipped(word, after);
    }
  }

  /** A value comes back as its number and its unit, when the unit does not read on as part of the number. */
  lemma ValueUndoesPrint(number: string, uom: string)
    requires number != [] && NumberLength(number + uom) == |number|
    requires Every(number + uom, NotSpace)
    ensures ValueOf(number + uom) == (NumberOf(number), uom)
  {
    var s := number + uom;
    StripKeeps(s);
    assert s[..|number|] == number && s[|number|..] == uom;
    EveryAppend(number, uom, NotSpace);
    StripKeeps(uom);
  }

  /** What a match has read: the label, in quotes or not, `=` and the rest. */
  ghost predicate Reads(s: string, m: Match, quoted: bool) {
    && m.end <= |s| && m.rest != [] && Every(m.rest, NotSpace)
    && s[..m.end] == (if quoted then "'" + m.name + "'" else m.name) + "=" + m.rest
    && (if quoted then Every(m.name, NotQuote) else m.name != [] && Every(m.name, IsLabelChar))
  }

  lemma RestRead(name: string, s: string, at: nat)
    requires at <= |s| && MatchRest(name, s, at).Some?
    ensures var m := MatchRest(name, s, at).value;
      && m.name == name && m.end <= |s| && m.rest != [] && Every(m.rest, NotSpace)
      && s[..m.end] == s[..at] + "=" + m.rest
  {
    PrefixMeans(s[at + 1..], NotSpace);
    var m := MatchRest(name, s, at).value;
    assert s[at + 1..][..|m.rest|] == m.rest;
  }

  lemma MatchedText(s: string)
    requires MatchAt(s).Some?
    ensures Reads(s, MatchAt(s).value, s[0] == '\'')
  {
    if s[0] == '\'' {
      var n := Prefix(s[1..], NotQuote);
      PrefixMeans(s[1..], NotQuote);
      RestRead(s[1..n + 1], s, n + 2);
      assert s[1..][..n] == s[1..n + 1] && s[1..][n] == s[n + 1];
      assert s[..n + 2] == "'" + s[1..n + 1] + "'";
    } else {
      var n := Prefix(s, IsLabelChar);
      PrefixMeans(s, IsLabelChar);
      RestRead(s[..n], s, n);
    }
  }

  /** No match is dropped: whatever `finditer` finds, in any text, `parse_metric` accepts. */
  lemma EveryMatchIsMetric(s: string)
    requires MatchAt(s).Some?
    ensures MatchAt(s).value.end <= |s|
    ensures ParseMetric(s[..MatchAt(s).value.end]) ==
      Some(MetricOf(MatchAt(s).value.name, Split(MatchAt(s).value.rest)))
  {
    var m := MatchAt(s).value;
    MatchedText(s);
    var t := s[..m.end];
    assert t + [] == t;
    if s[0] == '\'' {
      QuotedMatches(m.name, m.rest, []);
    } else {
      UnquotedMatches(m.name, m.rest, []);
    }
    ReadTextHasEnds(s, m, s[0] == '\'');
    StripKeeps(t);
  }

  lemma ReadTextHasEnds(s: string, m: Match, quoted: bool)
    requires Reads(s, m, quoted)
    ensures m.end > 0 && !IsSpace(s[..m.end][0]) && !IsSpace(s[..m.end][m.end - 1])
  {
    var t := s[..m.end];
    assert t[|t| - 1] == m.rest[|m.rest| - 1];
    if quoted {
      assert t[0] == '\'';
    } else {
      assert IsLabelChar(m.name[0]) && t[0] == m.name[0];
    }
  }

  // ---- What was printed comes back ----------------------------------------------------------------

  /** A metric to print: the value and its unit, two thresholds, and two limits. Only the first `count` of these
      five fields are printed. */
  datatype Reading = Reading(quoted: bool, name: string, figure: Figure, uom: string, warn: string, crit: string,
                             min: Option<Figure>, max: Option<Figure>, count: nat)

  ghost predicate IsWord(s: string) {
    Every(s, NotSpace) && Every(s, NotSemicolon)
  }

  ghost predicate IsReading(r: Reading) {
    && (if r.quoted then Every(r.name, NotQuote) else r.name != [] && Every(r.name, IsLabelChar))
    && IsFigure(r.figure) && IsWord(r.uom) && StopsNumber(r.uom) && IsWord(r.warn) && IsWord(r.crit)
    && (r.min.Some? ==> IsFigure(r.min.value)) && (r.max.Some? ==> IsFigure(r.max.value))
    && 1 <= r.count <= 5 && (forall i :: r.count <= i < 5 ==> FieldsOf(r)[i] == "")
  }

  function PrintLimitFigure(g: Option<Figure>): string {
    if g.Some? then PrintFigure(g.value) else ""
  }

  function FieldsOf(r: Reading): (fields: seq<string>)
    ensures |fields| == 5
  {
    [PrintFigure(r.figure) + r.uom, r.warn, r.crit, PrintLimitFigure(r.min), PrintLimitFigure(r.max)]
  }

  function AsDatum(r: Reading): Datum {
    Datum(r.quoted, r.name, FieldsOf(r)[..if r.count <= 5 then r.count else 5])
  }

  /** The metric a reading shows, told without the parser. */
  ghost function MetricShown(r: Reading): Metric
    requires IsReading(r)
  {
    var shown := Some(Shown(r.figure));
    Metric(r.name, shown, r.uom, r.warn, r.crit,
           if r.min.Some? then Some(Shown(r.min.value)) else None,
           if r.max.Some? then Some(Shown(r.max.value)) else None,
           Breaches(shown, r.warn) || Breaches(shown, r.crit))
  }

  lemma FigureIsWord(g: Figure)
    requires IsFigure(g)
    ensures IsWord(PrintFigure(g))
  {
    FigureChars(g);
    FigureCharsAreWord(PrintFigure(g));
  }

  lemma FigureCharsAreWord(s: string)
    requires Every(s, IsFigureChar)
    ensures IsWord(s)
  {
    forall i | 0 <= i < |s| ensures NotSpace(s[i]) && NotSemicolon(s[i]) {
      assert IsFigureChar(s[i]);
    }
  }

  lemma WordsAppend(a: string, b: string)
    requires IsWord(a) && IsWord(b)
    ensures IsWord(a + b)
  {
  }

  lemma WordStripped(s: string)
    requires Every(s, NotSpace)
    ensures Strip(s) == s
  {
    assert s != [] ==> NotSpace(s[0]) && NotSpace(s[|s| - 1]);
    StripKeeps(s);
  }

  lemma LimitComesBack(g: Option<Figure>)
    requires g.Some? ==> IsFigure(g.value)
    ensures IsWord(PrintLimitFigure(g))
    ensures NumberOf(PrintLimitFigure(g)) == if g.Some? then Some(Shown(g.value)) else None
  {
    if g.Some? {
      FigureIsWord(g.value);
      NumberOfFigure(g.value);
    } else {
      WordStripped("");
    }
  }

  lemma ReadingIsDatum(r: Reading)
    requires IsReading(r)
    ensures IsDatum(AsDatum(r))
  {
    FigureIsWord(r.figure);
    WordsAppend(PrintFigure(r.figure), r.uom);
    LimitComesBack(r.min);
    LimitComesBack(r.max);
    var fields := AsDatum(r).fields;
    forall i | 0 <= i < |fields| ensures Every(fields[i], NotSpace) && Every(fields[i], NotSemicolon) {
      assert fields[i] == FieldsOf(r)[i];
      assert i == 0 || i == 1 || i == 2 || i == 3 || i == 4;
    }
    assert fields[0] == PrintFigure(r.figure) + r.uom;
  }

  lemma ShownIsMade(r: Reading)
    requires IsReading(r)
    ensures MetricShown(r) == MakeMetric(r.name, Some(Shown(r.figure)), r.uom, r.warn, r.crit,
                                         if r.min.Some? then Some(Shown(r.min.value)) else None,
                                         if r.max.Some? then Some(Shown(r.max.value)) else None)
  {
  }

  /** Label, value, unit, thresholds and limits of a printed reading are the ones printed. */
  lemma FieldsComeBack(r: Reading)
    requires IsReading(r)
    ensures MetricOf(r.name, AsDatum(r).fields) == MetricShown(r)
  {
    ValueComesBack(r);
    WordStripped(r.warn);
    WordStripped(r.crit);
    LimitComesBack(r.min);
    LimitComesBack(r.max);
    FiveFields(r.name, FieldsOf(r));
    ShownIsMade(r);
    BlankFieldsMayGo(r.name, FieldsOf(r), r.count);
  }

  /** A field that is not printed reads as a blank one. */
  lemma BlankFieldsMayGo(name: string, fields: seq<string>, n: nat)
    requires |fields| == 5 && 1 <= n <= 5 && forall i :: n <= i < 5 ==> fields[i] == ""
    ensures MetricOf(name, fields[..n]) == MetricOf(name, fields)
  {
    FieldMayGo(fields, n, 1);
    FieldMayGo(fields, n, 2);
    FieldMayGo(fields, n, 3);
    FieldMayGo(fields, n, 4);
  }

  lemma FieldMayGo(fields: seq<string>, n: nat, i: nat)
    requires 1 <= n <= |fields| && 1 <= i < |fields| && (n <= i ==> fields[i] == "")
    ensures Field(fields[..n], i) == Field(fields, i) && LimitField(fields[..n], i) == LimitField(fields, i)
  {
    WordStripped("");
  }

  lemma FiveFields(name: string, fields: seq<string>)
    requires |fields| == 5
    ensures MetricOf(name, fields) ==
      MakeMetric(name, ValueOf(fields[0]).0, ValueOf(fields[0]).1, Strip(fields[1]), Strip(fields[2]),
                 NumberOf(fields[3]), NumberOf(fields[4]))
  {
  }

  /** A value that does not begin as a number, such as `U` for undetermined, is none and has no unit. */
  lemma UndeterminedValue(token: string)
    requires var t := Strip(token); t == [] || !(IsDigit(t[0]) || t[0] == '+' || t[0] == '-' || t[0] == '.')
    ensures ValueOf(token) == (None, "")
  {
  }

  lemma ValueComesBack(r: Reading)
    requires IsReading(r)
    ensures ValueOf(PrintFigure(r.figure) + r.uom) == (Some(Shown(r.figure)), r.uom)
  {
    FigureIsWord(r.figure);
    WordsAppend(PrintFigure(r.figure), r.uom);
    FigureLength(r.figure, r.uom);
    ValueUndoesPrint(PrintFigure(r.figure), r.uom);
    NumberOfFigure(r.figure);
  }

  /** A text of readings, and words that are none. */
  datatype Entry = Shows(reading: Reading) | Skip(word: string)

  ghost predicate IsEntry(x: Entry) {
    match x
    case Shows(r) => IsReading(r)
    case Skip(word) => Every(word, IsLabelChar)
  }

  function ItemsOf(entries: seq<Entry>): seq<Item> {
    if entries == [] then []
    else
      [match entries[0] case Shows(r) => Data(AsDatum(r)) case Skip(word) => Junk(word)] + ItemsOf(entries[1..])
  }

  ghost function MetricsShown(entries: seq<Entry>): seq<Metric>
    requires forall i :: 0 <= i < |entries| ==> IsEntry(entries[i])
  {
    if entries == [] then []
    else
      assert IsEntry(entries[0]);
      (match entries[0] case Shows(r) => [MetricShown(r)] case Skip(_) => []) + MetricsShown(entries[1..])
  }

  lemma {:induction false} EntriesAreItems(entries: seq<Entry>)
    requires forall i :: 0 <= i < |entries| ==> IsEntry(entries[i])
    ensures |ItemsOf(entries)| == |entries| && forall i :: 0 <= i < |entries| ==> IsItem(ItemsOf(entries)[i])
    ensures MetricsIn(ItemsOf(entries)) == MetricsShown(entries)
  {
    if entries == [] {
    } else {
      EntriesAreItems(entries[1..]);
      assert IsEntry(entries[0]);
      assert ItemsOf(entries)[1..] == ItemsOf(entries[1..]);
      if entries[0].Shows? {
        ReadingIsDatum(entries[0].reading);
        FieldsComeBack(entries[0].reading);
      }
    }
  }

  /** Printing readings and parsing the text gives them back: in order, each with the label, value, unit,
      thresholds and limits printed, and junk in between costs no neighbour. */
  lemma ReadingsComeBack(entries: seq<Entry>)
    requires forall i :: 0 <= i < |entries| ==> IsEntry(entries[i])
    ensures Metrics(PrintAll(ItemsOf(entries))) == MetricsShown(entries)
  {
    EntriesAreItems(entries);
    ParseUndoesPrintAll(ItemsOf(entries));
  }
}
