/** Group availability (`_summarize_availability`, inventory.py), over real numbers.

    Percentages are reported with four decimals: here as whole ten-thousandths of a percent. */
module Availability {
  import opened Basics
  import opened TimeOrder

  /** An availability row: its second counters, and the percentage column if there is one. */
  datatype Row = Row(id: string, good: real, bad: seq<real>, indet: seq<real>, percent: Option<real>)

  /** An object and its rounded percentage. */
  type Rated = Timed<string>

  // ---- Rounding ----------------------------------------------------------------------------------------

  /** `round(x, 4)`, a tie going to the even neighbour. */
  function Round4(x: real): int {
    var y := 10000.0 * x;
    var f := y.Floor;
    if y - f as real < 0.5 then f
    else if y - f as real > 0.5 then f + 1
    else if f % 2 == 0 then f else f + 1
  }

  function Percent(ticks: int): real {
    ticks as real / 10000.0
  }

  /** To the nearest one, a tie to the even one. */
  lemma Round4IsNear(x: real)
    ensures var off := 10000.0 * x - Round4(x) as real;
      -0.5 <= off <= 0.5 && (off == -0.5 || off == 0.5 ==> Round4(x) % 2 == 0)
  {
  }

  lemma FloorIs(x: real, n: int)
    requires n as real <= x < n as real + 1.0
    ensures x.Floor == n
  {
  }

  lemma Round4IsMonotone(x: real, y: real)
    requires x <= y
    ensures Round4(x) <= Round4(y)
  {
    var a, b := 10000.0 * x, 10000.0 * y;
    assert a <= b && a.Floor <= b.Floor;
  }

  lemma Round4Percent(n: int)
    ensures Round4(Percent(n)) == n
  {
    assert 10000.0 * Percent(n) == n as real;
    FloorIs(n as real, n);
  }

  /** A percentage is below a rounded one only if its rounding is no higher, and the other way round. */
  lemma RoundedOrder(x: real, n: int)
    ensures x < Percent(n) ==> Round4(x) <= n
    ensures x >= Percent(n) ==> Round4(x) >= n
    ensures x <= Percent(n) ==> Round4(x) <= n
  {
    Round4Percent(n);
    if x <= Percent(n) {
      Round4IsMonotone(x, Percent(n));
    } else {
      Round4IsMonotone(Percent(n), x);
    }
  }

  // ---- Sums --------------------------------------------------------------------------------------------

  function Sum(xs: seq<real>): real {
    if xs == [] then 0.0 else xs[0] + Sum(xs[1..])
  }

  function Bad(row: Row): real {
    Sum(row.bad)
  }

  function Indet(row: Row): real {
    Sum(row.indet)
  }

  function Determinate(row: Row): real {
    row.good + Bad(row)
  }

  function SumGood(rows: seq<Row>): real {
    if rows == [] then 0.0 else rows[0].good + SumGood(rows[1..])
  }

  function SumBad(rows: seq<Row>): real {
    if rows == [] then 0.0 else Bad(rows[0]) + SumBad(rows[1..])
  }

  function SumIndet(rows: seq<Row>): real {
    if rows == [] then 0.0 else Indet(rows[0]) + SumIndet(rows[1..])
  }

  /** The row's percentage: its column, or what its counters say. */
  function Rate(row: Row): Option<real> {
    if row.percent.Some? then row.percent
    else if Determinate(row) != 0.0 then Some(100.0 * row.good / Determinate(row))
    else None
  }

  function Rates(rows: seq<Row>): seq<real> {
    if rows == [] then []
    else if Rate(rows[0]).Some? then [Rate(rows[0]).value] + Rates(rows[1..])
    else Rates(rows[1..])
  }

  predicate HasSeconds(row: Row) {
    row.good != 0.0 || Bad(row) != 0.0 || Indet(row) != 0.0
  }

  predicate IsBelow(row: Row, threshold: real) {
    Rate(row).Some? && Rate(row).value < threshold
  }

  /** The rows below the threshold, in row order. */
  function Below(rows: seq<Row>, threshold: real): seq<Rated> {
    if rows == [] then []
    else if IsBelow(rows[0], threshold) then
      [Timed(Round4(Rate(rows[0]).value), rows[0].id)] + Below(rows[1..], threshold)
    else Below(rows[1..], threshold)
  }

  datatype Shares = Shares(good: int, bad: int, indet: int)

  datatype Summary = Summary(objects: nat, availability: Option<int>, worst: Option<Rated>, best: Option<Rated>,
                             below: seq<Rated>, distribution: Option<Shares>)

  // ---- The headline --------------------------------------------------------------------------------------

  /** Before rounding: weighted by time if there are seconds, the mean of the percentages otherwise. */
  function Headline(rows: seq<Row>): Option<real> {
    var determinate := SumGood(rows) + SumBad(rows);
    if AnySeconds(rows) && determinate > 0.0 then Some(100.0 * SumGood(rows) / determinate)
    else if |Rates(rows)| > 0 then Some(Sum(Rates(rows)) / |Rates(rows)| as real)
    else None
  }

  /** The three shares before rounding. */
  function RawShares(rows: seq<Row>): Option<(real, real, real)> {
    var total := SumGood(rows) + SumBad(rows) + SumIndet(rows);
    if AnySeconds(rows) && total > 0.0 then
      Some((100.0 * SumGood(rows) / total, 100.0 * SumBad(rows) / total, 100.0 * SumIndet(rows) / total))
    else None
  }

  // ---- The loop ------------------------------------------------------------------------------------------

  /** The row's object takes the place of the worst (best) so far if its percentage is below (above) the
      rounded one of that. */
  function Next(x: Option<Rated>, row: Row, lowest: bool): Option<Rated> {
    match Rate(row)
    case None => x
    case Some(p) =>
      if x.None? || (if lowest then p < Percent(x.value.time) else p > Percent(x.value.time)) then
        Some(Timed(Round4(p), row.id))
      else x
  }

  function Extreme(x: Option<Rated>, rows: seq<Row>, lowest: bool): Option<Rated>
    decreases |rows|
  {
    if rows == [] then x else Extreme(Next(x, rows[0], lowest), rows[1..], lowest)
  }

  /** What the loop has gathered. */
  datatype Totals = Totals(good: real, bad: real, indet: real, pct: real, n: nat, seconds: bool,
                           worst: Option<Rated>, best: Option<Rated>, below: seq<Rated>)

  const START := Totals(0.0, 0.0, 0.0, 0.0, 0, false, None, None, [])

  function Add(t: Totals, row: Row, threshold: real): Totals {
    var rate := Rate(row);
    Totals(t.good + row.good, t.bad + Bad(row), t.indet + Indet(row),
           t.pct + (if rate.Some? then rate.value else 0.0), t.n + (if rate.Some? then 1 else 0),
           t.seconds || HasSeconds(row), Next(t.worst, row, true), Next(t.best, row, false),
           t.below + Below([row], threshold))
  }

  function AddAll(t: Totals, rows: seq<Row>, threshold: real): Totals
    decreases |rows|
  {
    if rows == [] then t else AddAll(Add(t, rows[0], threshold), rows[1..], threshold)
  }

  predicate AnySeconds(rows: seq<Row>) {
    exists row :: row in rows && HasSeconds(row)
  }

  /** The loop gathers the sums, the extremes and the rows below the threshold. */
  lemma {:induction false} TotalsAreSums(t: Totals, rows: seq<Row>, threshold: real)
    ensures var r := AddAll(t, rows, threshold);
      && r.good == t.good + SumGood(rows) && r.bad == t.bad + SumBad(rows) && r.indet == t.indet + SumIndet(rows)
      && r.pct == t.pct + Sum(Rates(rows)) && r.n == t.n + |Rates(rows)|
      && r.seconds == (t.seconds || AnySeconds(rows))
      && r.worst == Extreme(t.worst, rows, true) && r.best == Extreme(t.best, rows, false)
      && r.below == t.below + Below(rows, threshold)
    decreases |rows|
  {
    if rows == [] {
    } else {
      TotalsAreSums(Add(t, rows[0], threshold), rows[1..], threshold);
      assert rows == [rows[0]] + rows[1..];
      BelowStep(t.below, rows, threshold);
      RatesStep(rows);
    }
  }

  lemma RatesStep(rows: seq<Row>)
    requires rows != []
    ensures Sum(Rates(rows)) == (if Rate(rows[0]).Some? then Rate(rows[0]).value else 0.0) + Sum(Rates(rows[1..]))
  {
  }

  lemma BelowStep(before: seq<Rated>, rows: seq<Row>, threshold: real)
    requires rows != []
    ensures before + Below(rows, threshold) == before + Below([rows[0]], threshold) + Below(rows[1..], threshold)
  {
    assert [rows[0]][1..] == [];
  }

  lemma BelowOne(row: Row, threshold: real)
    ensures Below([row], threshold) ==
      if Rate(row).Some? && Rate(row).value < threshold then [Timed(Round4(Rate(row).value), row.id)] else []
  {
    assert [row][1..] == [];
    assert Below([], threshold) == [];
  }

  lemma AddNext(t: Totals, rows: seq<Row>, i: nat, threshold: real)
    requires i < |rows|
    ensures AddAll(t, rows[i..], threshold) == AddAll(Add(t, rows[i], threshold), rows[i + 1..], threshold)
  {
    assert rows[i..][1..] == rows[i + 1..];
  }

  /** What follows the loop. */
  function Report(objects: nat, t: Totals): Summary {
    var determinate := t.good + t.bad;
    var total := t.good + t.bad + t.indet;
    Summary(
      objects,
      if t.seconds && determinate > 0.0 then Some(Round4(100.0 * t.good / determinate))
      else if t.n > 0 then Some(Round4(t.pct / t.n as real))
      else None,
      t.worst, t.best, SortByTime(t.below),
      if t.seconds && total > 0.0 then
        Some(Shares(Round4(100.0 * t.good / total), Round4(100.0 * t.bad / total), Round4(100.0 * t.indet / total)))
      else None)
  }

  ghost predicate IsSummary(rows: seq<Row>, threshold: real, s: Summary) {
    && s.objects == |rows|
    && s.availability == (match Headline(rows) case None => None case Some(x) => Some(Round4(x)))
    && s.worst == Extreme(None, rows, true) && s.best == Extreme(None, rows, false)
    && s.below == SortByTime(Below(rows, threshold))
    && s.distribution == match RawShares(rows)
                         case None => None
                         case Some((g, b, i)) => Some(Shares(Round4(g), Round4(b), Round4(i)))
  }

  lemma ReportIsRight(rows: seq<Row>, threshold: real)
    ensures IsSummary(rows, threshold, Report(|rows|, AddAll(START, rows, threshold)))
  {
    TotalsAreSums(START, rows, threshold);
    assert START.below + Below(rows, threshold) == Below(rows, threshold);
    var t := AddAll(START, rows, threshold);
    assert t.good == SumGood(rows) && t.bad == SumBad(rows) && t.indet == SumIndet(rows);
    assert t.pct == Sum(Rates(rows)) && t.n == |Rates(rows)| && t.seconds == AnySeconds(rows);
  }

  /** One turn of the loop: the accumulators after one more row. */
  method Gather(t: Totals, row: Row, threshold: real) returns (next: Totals)
    ensures next == Add(t, row, threshold)
  {
    next := t.(seconds := t.seconds || HasSeconds(row),
               good := t.good + row.good, bad := t.bad + Bad(row), indet := t.indet + Indet(row));
    var rate := Rate(row);
    if rate.Some? {
      var pct := rate.value;
      next := next.(pct := next.pct + pct, n := next.n + 1);
      var obj := Timed(Round4(pct), row.id);
      if next.worst.None? || pct < Percent(next.worst.value.time) {
        next := next.(worst := Some(obj));
      }
      if next.best.None? || pct > Percent(next.best.value.time) {
        next := next.(best := Some(obj));
      }
      if pct < threshold {
        next := next.(below := next.below + [obj]);
      }
    }
    BelowOne(row, threshold);
    assert t.below + [] == t.below;
  }

  /** `_summarize_availability`. */
  method SummarizeAvailability(rows: seq<Row>, threshold: real) returns (s: Summary)
    ensures IsSummary(rows, threshold, s)
  {
    var t := START;
    for i := 0 to |rows|
      invariant AddAll(t, rows[i..], threshold) == AddAll(START, rows, threshold)
    {
      AddNext(t, rows, i, threshold);
      t := Gather(t, rows[i], threshold);
    }
    assert rows[|rows|..] == [];
    ReportIsRight(rows, threshold);
    s := Report(|rows|, t);
  }

  // ---- Worst and best ------------------------------------------------------------------------------------

  predicate NoWorse(x: Option<Rated>, row: Row, lowest: bool) {
    Rate(row).Some? ==>
      x.Some? && if lowest then x.value.time <= Round4(Rate(row).value) else x.value.time >= Round4(Rate(row).value)
  }

  lemma NextIsExtreme(x: Option<Rated>, row: Row, lowest: bool)
    ensures var y := Next(x, row, lowest);
      && NoWorse(y, row, lowest)
      && (x.Some? ==> y.Some? && if lowest then y.value.time <= x.value.time else y.value.time >= x.value.time)
  {
    if Rate(row).Some? && x.Some? {
      RoundedOrder(Rate(row).value, x.value.time);
    }
  }

  /** The worst (best) reported has the lowest (highest) rounded percentage of all. */
  lemma {:induction false} ExtremeIsExtreme(x: Option<Rated>, rows: seq<Row>, lowest: bool)
    ensures forall row :: row in rows ==> NoWorse(Extreme(x, rows, lowest), row, lowest)
    ensures var y := Extreme(x, rows, lowest);
      x.Some? ==> y.Some? && if lowest then y.value.time <= x.value.time else y.value.time >= x.value.time
    decreases |rows|
  {
    if rows == [] {
    } else {
      NextIsExtreme(x, rows[0], lowest);
      ExtremeIsExtreme(Next(x, rows[0], lowest), rows[1..], lowest);
      assert rows == [rows[0]] + rows[1..];
    }
  }

  predicate Rounds(row: Row, m: int) {
    Rate(row).Some? && Round4(Rate(row).value) == m
  }

  /** Rated below (above) the percentage it rounds to. */
  predicate Beyond(row: Row, m: int, lowest: bool) {
    Rounds(row, m) && if lowest then Rate(row).value < Percent(m) else Rate(row).value > Percent(m)
  }

  /** Of the rows that round to `m`: the last one beyond it, or the first one if none is beyond. */
  ghost predicate IsReported(rows: seq<Row>, i: int, m: int, lowest: bool) {
    && 0 <= i < |rows| && Rounds(rows[i], m)
    && (if Beyond(rows[i], m, lowest) then forall j :: i < j < |rows| ==> !Beyond(rows[j], m, lowest)
        else
          && (forall j :: 0 <= j < |rows| ==> !Beyond(rows[j], m, lowest))
          && forall j :: 0 <= j < i ==> !Rounds(rows[j], m))
  }

  /** What the loop leaves as the worst (best): a row's object, or what was there before. */
  lemma {:induction false} ReportedAfter(x: Option<Rated>, rows: seq<Row>, lowest: bool) returns (i: int)
    requires Extreme(x, rows, lowest).Some?
    ensures var y := Extreme(x, rows, lowest).value;
      if i < 0 then x == Some(y) && forall j :: 0 <= j < |rows| ==> !Beyond(rows[j], y.time, lowest)
      else
        && IsReported(rows, i, y.time, lowest) && y == Timed(y.time, rows[i].id)
        && (!Beyond(rows[i], y.time, lowest) ==> x.None? || x.value.time != y.time)
    decreases |rows|
  {
    if rows == [] {
      return -1;
    }
    var row, rest := rows[0], rows[1..];
    var y := Extreme(x, rows, lowest).value;
    var k := ReportedAfter(Next(x, row, lowest), rest, lowest);
    NextIsExtreme(x, row, lowest);
    ExtremeIsExtreme(Next(x, row, lowest), rest, lowest);
    assert forall j :: 0 < j < |rows| ==> rows[j] == rest[j - 1];
    if k >= 0 {
      i := k + 1;
    } else if Next(x, row, lowest) == x && (x.None? || !Beyond(row, y.time, lowest)) {
      i := -1;
    } else {
      i := 0;
    }
  }

  /** Which row is reported as the worst (best), for any rows; and exactly when it is a lowest (highest) one:
      when no row that rounds alike lies beyond it, as when rows that round alike are rated alike. */
  lemma ReportedExactly(rows: seq<Row>, lowest: bool) returns (i: int)
    requires Extreme(None, rows, lowest).Some?
    ensures var y := Extreme(None, rows, lowest).value;
      && IsReported(rows, i, y.time, lowest) && y == Timed(y.time, rows[i].id)
      && ((forall j :: 0 <= j < |rows| && Rate(rows[j]).Some? ==> NotBeyond(rows[j], rows[i], lowest))
          <==> forall j :: 0 <= j < |rows| && Rounds(rows[j], y.time) ==> NotBeyond(rows[j], rows[i], lowest))
  {
    i := ReportedAfter(None, rows, lowest);
    var m := Extreme(None, rows, lowest).value.time;
    ExtremeIsExtreme(None, rows, lowest);
    forall j | 0 <= j < |rows| && Rate(rows[j]).Some? && !Rounds(rows[j], m)
      ensures NotBeyond(rows[j], rows[i], lowest)
    {
      assert NoWorse(Extreme(None, rows, lowest), rows[j], lowest);
      if !NotBeyond(rows[j], rows[i], lowest) {
        if lowest {
          Round4IsMonotone(Rate(rows[j]).value, Rate(rows[i]).value);
        } else {
          Round4IsMonotone(Rate(rows[i]).value, Rate(rows[j]).value);
        }
      }
    }
  }

  /** `a` is rated no lower (no higher) than `b`. */
  predicate NotBeyond(a: Row, b: Row, lowest: bool)
    requires Rate(a).Some? && Rate(b).Some?
  {
    if lowest then Rate(a).value >= Rate(b).value else Rate(a).value <= Rate(b).value
  }

  /** Two rows that round to 100 from below: the second is reported as the worst, the first is lower. */
  lemma WorstAmongEquals()
    ensures var rows := [Row("low", 0.0, [], [], Some(99.99996)), Row("high", 0.0, [], [], Some(99.99997))];
      Extreme(None, rows, true) == Some(Timed(1000000, "high")) && !NotBeyond(rows[0], rows[1], true)
  {
    var low, high := Row("low", 0.0, [], [], Some(99.99996)), Row("high", 0.0, [], [], Some(99.99997));
    FloorIs(10000.0 * 99.99996, 999999);
    FloorIs(10000.0 * 99.99997, 999999);
    assert [low, high][1..] == [high] && [high][1..] == [];
    var first := Next(None, low, true);
    assert first == Some(Timed(1000000, "low"));
    assert Next(first, high, true) == Some(Timed(1000000, "high"));
    assert Extreme(first, [high], true) == Extreme(Next(first, high, true), [], true);
  }

  // ---- The headline lies between the worst and the best ----------------------------------------------------

  /** Counters are not negative, and where there is determinate time the percentage is what they say. */
  predicate Consistent(row: Row) {
    && row.good >= 0.0 && Bad(row) >= 0.0 && Indet(row) >= 0.0
    && (row.percent.Some? && Determinate(row) > 0.0 ==> row.percent.value == 100.0 * row.good / Determinate(row))
  }

  lemma {:induction false} SumsAreNotNegative(rows: seq<Row>)
    requires forall row :: row in rows ==> Consistent(row)
    ensures SumGood(rows) >= 0.0 && SumBad(rows) >= 0.0 && SumIndet(rows) >= 0.0
  {
    if rows == [] {
    } else {
      SumsAreNotNegative(rows[1..]);
      assert Consistent(rows[0]);
    }
  }

  /** `p` percent of `d` is at most (at least) `g`. */
  predicate AtMost(p: real, d: real, g: real) {
    p * d <= 100.0 * g
  }

  predicate AtLeast(p: real, d: real, g: real) {
    p * d >= 100.0 * g
  }

  lemma ShareIsBoth(g: real, d: real)
    requires d > 0.0
    ensures AtMost(100.0 * g / d, d, g) && AtLeast(100.0 * g / d, d, g)
  {
  }

  lemma Scale(p: real, q: real, d: real)
    requires p <= q && d >= 0.0
    ensures p * d <= q * d
  {
  }

  lemma Divide(p: real, g: real, d: real)
    requires d > 0.0
    ensures AtMost(p, d, g) ==> p <= 100.0 * g / d
    ensures AtLeast(p, d, g) ==> p >= 100.0 * g / d
  {
    var q := 100.0 * g / d;
    assert q * d == 100.0 * g;
    if p > q {
      assert (p - q) * d > 0.0;
    }
    if p < q {
      assert (q - p) * d > 0.0;
    }
  }

  /** The smaller of two shares is at most the share of both together, the larger one at least. */
  lemma Mediant(p: real, d: real, g: real, q: real, d': real, g': real)
    requires d >= 0.0 && d' >= 0.0 && p <= q
    ensures AtMost(p, d, g) && AtMost(q, d', g') ==> AtMost(p, d + d', g + g')
    ensures AtLeast(p, d, g) && AtLeast(q, d', g') ==> AtLeast(q, d + d', g + g')
  {
    Scale(p, q, d);
    Scale(p, q, d');
    assert 100.0 * (g + g') == 100.0 * g + 100.0 * g';
    if AtMost(p, d, g) && AtMost(q, d', g') {
      assert p * (d + d') == p * d + p * d' <= 100.0 * (g + g');
    }
    if AtLeast(p, d, g) && AtLeast(q, d', g') {
      assert q * (d + d') == q * d + q * d' >= 100.0 * (g + g');
    }
  }

  lemma RowShare(row: Row)
    requires Consistent(row) && Determinate(row) > 0.0
    ensures Rate(row).Some?
    ensures AtMost(Rate(row).value, Determinate(row), row.good) && AtLeast(Rate(row).value, Determinate(row), row.good)
  {
    ShareIsBoth(row.good, Determinate(row));
  }

  lemma NothingElse(row: Row, rest: seq<Row>)
    requires Consistent(row) && forall r :: r in rest ==> Consistent(r)
    requires Total(rest) == 0.0
    ensures SumGood(rest) == 0.0 && Total([row] + rest) == Determinate(row) && SumGood([row] + rest) == row.good
  {
    SumsAreNotNegative(rest);
    assert ([row] + rest)[1..] == rest;
  }

  function Total(rows: seq<Row>): real {
    SumGood(rows) + SumBad(rows)
  }

  /** Some row is rated no higher than all rows together. */
  lemma {:induction false} SomeRowAtMost(rows: seq<Row>) returns (low: Row)
    requires Total(rows) > 0.0 && forall row :: row in rows ==> Consistent(row)
    ensures low in rows && Rate(low).Some? && AtMost(Rate(low).value, Total(rows), SumGood(rows))
  {
    var row, rest := rows[0], rows[1..];
    assert rows == [row] + rest && Consistent(row);
    SumsAreNotNegative(rest);
    if Total(rest) == 0.0 {
      NothingElse(row, rest);
      RowShare(row);
      return row;
    }
    low := SomeRowAtMost(rest);
    assert Total(rows) == Determinate(row) + Total(rest);
    if Determinate(row) > 0.0 {
      RowShare(row);
      var p, q := Rate(row).value, Rate(low).value;
      if p <= q {
        Mediant(p, Determinate(row), row.good, q, Total(rest), SumGood(rest));
        return row;
      }
      Mediant(q, Total(rest), SumGood(rest), p, Determinate(row), row.good);
    }
  }

  /** And some row no lower. */
  lemma {:induction false} SomeRowAtLeast(rows: seq<Row>) returns (high: Row)
    requires Total(rows) > 0.0 && forall row :: row in rows ==> Consistent(row)
    ensures high in rows && Rate(high).Some? && AtLeast(Rate(high).value, Total(rows), SumGood(rows))
  {
    var row, rest := rows[0], rows[1..];
    assert rows == [row] + rest && Consistent(row);
    SumsAreNotNegative(rest);
    if Total(rest) == 0.0 {
      NothingElse(row, rest);
      RowShare(row);
      return row;
    }
    high := SomeRowAtLeast(rest);
    assert Total(rows) == Determinate(row) + Total(rest);
    if Determinate(row) > 0.0 {
      RowShare(row);
      var p, q := Rate(row).value, Rate(high).value;
      if p >= q {
        Mediant(q, Total(rest), SumGood(rest), p, Determinate(row), row.good);
        return row;
      }
      Mediant(p, Determinate(row), row.good, q, Total(rest), SumGood(rest));
    }
  }

  /** A mean lies between the extremes: every rate weighs the same. */
  lemma {:induction false} SomeRateAtMost(rates: seq<real>) returns (low: nat, high: nat)
    requires rates != []
    ensures low < |rates| && AtMost(rates[low], |rates| as real, Sum(rates) / 100.0)
    ensures high < |rates| && AtLeast(rates[high], |rates| as real, Sum(rates) / 100.0)
  {
    var rest := rates[1..];
    if rest == [] {
      assert Sum(rest) == 0.0;
      return 0, 0;
    }
    var l, h := SomeRateAtMost(rest);
    low := RateAtMost(rates, l);
    high := RateAtLeast(rates, h);
  }

  lemma RateAtMost(rates: seq<real>, l: nat) returns (low: nat)
    requires l + 1 < |rates| && AtMost(rates[l + 1], (|rates| - 1) as real, Sum(rates[1..]) / 100.0)
    ensures low < |rates| && AtMost(rates[low], |rates| as real, Sum(rates) / 100.0)
  {
    var x, y, n := rates[0], rates[l + 1], (|rates| - 1) as real;
    assert AtMost(x, 1.0, x / 100.0);
    if x <= y {
      Mediant(x, 1.0, x / 100.0, y, n, Sum(rates[1..]) / 100.0);
      return 0;
    }
    Mediant(y, n, Sum(rates[1..]) / 100.0, x, 1.0, x / 100.0);
    return l + 1;
  }

  lemma RateAtLeast(rates: seq<real>, h: nat) returns (high: nat)
    requires h + 1 < |rates| && AtLeast(rates[h + 1], (|rates| - 1) as real, Sum(rates[1..]) / 100.0)
    ensures high < |rates| && AtLeast(rates[high], |rates| as real, Sum(rates) / 100.0)
  {
    var x, y, n := rates[0], rates[h + 1], (|rates| - 1) as real;
    assert AtLeast(x, 1.0, x / 100.0);
    if x >= y {
      Mediant(y, n, Sum(rates[1..]) / 100.0, x, 1.0, x / 100.0);
      return 0;
    }
    Mediant(x, 1.0, x / 100.0, y, n, Sum(rates[1..]) / 100.0);
    return h + 1;
  }

  lemma {:induction false} RateOfSomeRow(rows: seq<Row>, k: nat)
    requires k < |Rates(rows)|
    ensures exists row :: row in rows && Rate(row) == Some(Rates(rows)[k])
  {
    if Rate(rows[0]).Some? && k == 0 {
      assert rows[0] in rows;
    } else {
      var j := if Rate(rows[0]).Some? then k - 1 else k;
      RateOfSomeRow(rows[1..], j);
      var row :| row in rows[1..] && Rate(row) == Some(Rates(rows[1..])[j]);
      assert row in rows;
    }
  }

  lemma MeanIsBetween(rows: seq<Row>) returns (low: Row, high: Row)
    requires Rates(rows) != []
    ensures low in rows && Rate(low).Some? && Rate(low).value <= Sum(Rates(rows)) / |Rates(rows)| as real
    ensures high in rows && Rate(high).Some? && Rate(high).value >= Sum(Rates(rows)) / |Rates(rows)| as real
  {
    var rates := Rates(rows);
    var l, h := SomeRateAtMost(rates);
    RateOfSomeRow(rows, l);
    RateOfSomeRow(rows, h);
    low :| low in rows && Rate(low) == Some(rates[l]);
    high :| high in rows && Rate(high) == Some(rates[h]);
    MeanBounds(rates[l], Sum(rates), |rates| as real);
    MeanBounds(rates[h], Sum(rates), |rates| as real);
  }

  lemma MeanBounds(x: real, sum: real, n: real)
    requires n > 0.0
    ensures AtMost(x, n, sum / 100.0) ==> x <= sum / n
    ensures AtLeast(x, n, sum / 100.0) ==> x >= sum / n
  {
    Divide(x, sum / 100.0, n);
    assert 100.0 * (sum / 100.0) == sum;
  }

  lemma WeightedIsBetween(rows: seq<Row>) returns (low: Row, high: Row)
    requires Total(rows) > 0.0 && forall row :: row in rows ==> Consistent(row)
    ensures low in rows && Rate(low).Some? && Rate(low).value <= 100.0 * SumGood(rows) / Total(rows)
    ensures high in rows && Rate(high).Some? && Rate(high).value >= 100.0 * SumGood(rows) / Total(rows)
  {
    low := SomeRowAtMost(rows);
    high := SomeRowAtLeast(rows);
    Divide(Rate(low).value, SumGood(rows), Total(rows));
    Divide(Rate(high).value, SumGood(rows), Total(rows));
  }

  /** Before rounding, some row's percentage is at most the headline, and some row's at least. */
  lemma HeadlineIsBetween(rows: seq<Row>) returns (low: Row, high: Row)
    requires Headline(rows).Some? && forall row :: row in rows ==> Consistent(row)
    ensures low in rows && Rate(low).Some? && Rate(low).value <= Headline(rows).value
    ensures high in rows && Rate(high).Some? && Rate(high).value >= Headline(rows).value
  {
    if AnySeconds(rows) && SumGood(rows) + SumBad(rows) > 0.0 {
      low, high := WeightedIsBetween(rows);
    } else {
      low, high := MeanIsBetween(rows);
    }
  }

  /** The reported headline lies between the reported worst and best, all three rounded; and the worst and the
      best are two rows' objects with their percentages. */
  lemma BetweenWorstAndBest(rows: seq<Row>) returns (w: int, b: int)
    requires Headline(rows).Some? && forall row :: row in rows ==> Consistent(row)
    ensures 0 <= w < |rows| && 0 <= b < |rows| && Rate(rows[w]).Some? && Rate(rows[b]).Some?
    ensures Extreme(None, rows, true) == Some(Timed(Round4(Rate(rows[w]).value), rows[w].id))
    ensures Extreme(None, rows, false) == Some(Timed(Round4(Rate(rows[b]).value), rows[b].id))
    ensures Round4(Rate(rows[w]).value) <= Round4(Headline(rows).value) <= Round4(Rate(rows[b]).value)
  {
    var low, high := HeadlineIsBetween(rows);
    ExtremeIsExtreme(None, rows, true);
    ExtremeIsExtreme(None, rows, false);
    assert NoWorse(Extreme(None, rows, true), low, true) && NoWorse(Extreme(None, rows, false), high, false);
    w := ReportedExactly(rows, true);
    b := ReportedExactly(rows, false);
    Round4IsMonotone(Rate(low).value, Headline(rows).value);
    Round4IsMonotone(Headline(rows).value, Rate(high).value);
  }

  lemma Distribute(g: real, b: real, i: real, total: real)
    requires total > 0.0 && total == g + b + i
    ensures 100.0 * g / total + 100.0 * b / total + 100.0 * i / total == 100.0
  {
  }

  /** The shares sum to 100 before rounding, and to within one ten-thousandth of it after. */
  lemma SharesSumToHundred(rows: seq<Row>)
    requires RawShares(rows).Some?
    ensures var (g, b, i) := RawShares(rows).value;
      g + b + i == 100.0 && 999999 <= Round4(g) + Round4(b) + Round4(i) <= 1000001
  {
    var (g, b, i) := RawShares(rows).value;
    var total := SumGood(rows) + SumBad(rows) + SumIndet(rows);
    Distribute(SumGood(rows), SumBad(rows), SumIndet(rows), total);
    Round4IsNear(g);
    Round4IsNear(b);
    Round4IsNear(i);
  }

  lemma Spread(x: real, n: real, part: real, total: real)
    requires total > 0.0 && x * total == 100.0 * part && -0.5 <= 10000.0 * x - n <= 0.5
    ensures -0.5 * total <= 1000000.0 * part - n * total <= 0.5 * total
  {
    var y := 10000.0 * x - n;
    Scale(-0.5, y, total);
    Scale(y, 0.5, total);
    Minus(10000.0 * x, n, total);
    Times(10000.0, x, total);
  }

  lemma Minus(a: real, b: real, c: real)
    ensures (a - b) * c == a * c - b * c
  {
  }

  lemma Times(a: real, b: real, c: real)
    ensures a * b * c == a * (b * c)
  {
  }

  /** A rounded share of a total is near the part it stands for. */
  predicate IsNear(ticks: int, part: real, total: real) {
    -0.5 * total <= 1000000.0 * part - ticks as real * total <= 0.5 * total
  }

  lemma ShareIsNear(part: real, total: real)
    requires total > 0.0
    ensures IsNear(Round4(100.0 * part / total), part, total)
  {
    var x := 100.0 * part / total;
    Round4IsNear(x);
    Spread(x, Round4(x) as real, part, total);
  }

  /** Some row has seconds. */
  predicate AnyTime(rows: seq<Row>) {
    exists row :: row in rows && (row.good != 0.0 || Sum(row.bad) != 0.0 || Sum(row.indet) != 0.0)
  }

  lemma AnyTimeExactly(rows: seq<Row>)
    ensures AnyTime(rows) <==> AnySeconds(rows)
  {
  }

  /** The shares reported are the good, the bad and the indeterminate seconds in percent of all seconds, each to
      within half a ten-thousandth; there are none exactly where there are no seconds to share. */
  lemma SharesAreProportions(rows: seq<Row>, threshold: real, s: Summary)
    requires IsSummary(rows, threshold, s)
    ensures var total := SumGood(rows) + SumBad(rows) + SumIndet(rows);
      && (s.distribution.None? <==> !AnyTime(rows) || total <= 0.0)
      && (s.distribution.Some? ==>
            var d := s.distribution.value;
            && IsNear(d.good, SumGood(rows), total) && IsNear(d.bad, SumBad(rows), total)
            && IsNear(d.indet, SumIndet(rows), total))
  {
    var total := SumGood(rows) + SumBad(rows) + SumIndet(rows);
    AnyTimeExactly(rows);
    if s.distribution.Some? {
      ShareIsNear(SumGood(rows), total);
      ShareIsNear(SumBad(rows), total);
      ShareIsNear(SumIndet(rows), total);
    }
  }

  /** A rounded mean is near the sum it was taken of. */
  predicate IsMean(ticks: int, sum: real, n: real) {
    -0.5 * n <= 10000.0 * sum - ticks as real * n <= 0.5 * n
  }

  lemma SpreadMean(x: real, r: real, sum: real, n: real)
    requires n > 0.0 && x * n == sum && -0.5 <= 10000.0 * x - r <= 0.5
    ensures -0.5 * n <= 10000.0 * sum - r * n <= 0.5 * n
  {
    Scale(-0.5, 10000.0 * x - r, n);
    Scale(10000.0 * x - r, 0.5, n);
    Minus(10000.0 * x, r, n);
    Times(10000.0, x, n);
  }

  lemma MeanIsNear(sum: real, n: real)
    requires n > 0.0
    ensures IsMean(Round4(sum / n), sum, n)
  {
    Round4IsNear(sum / n);
    SpreadMean(sum / n, Round4(sum / n) as real, sum, n);
  }

  /** The headline reported: where some row has seconds and some of them are good or bad, the good seconds in percent of
      those; else the mean of the rows' percentages, to within half a ten-thousandth; else none. */
  lemma HeadlineMeans(rows: seq<Row>, threshold: real, s: Summary)
    requires IsSummary(rows, threshold, s)
    ensures
      if AnyTime(rows) && SumGood(rows) + SumBad(rows) > 0.0 then
        s.availability.Some? && IsNear(s.availability.value, SumGood(rows), SumGood(rows) + SumBad(rows))
      else if |Rates(rows)| > 0 then
        s.availability.Some? && IsMean(s.availability.value, Sum(Rates(rows)), |Rates(rows)| as real)
      else s.availability.None?
  {
    AnyTimeExactly(rows);
    if SumGood(rows) + SumBad(rows) > 0.0 {
      ShareIsNear(SumGood(rows), SumGood(rows) + SumBad(rows));
    }
    if |Rates(rows)| > 0 {
      MeanIsNear(Sum(Rates(rows)), |Rates(rows)| as real);
    }
  }

  /** A percentage column that disagrees with the counters breaks the promise: the best reported is below the
      headline. */
  lemma InconsistentColumn()
    ensures var rows := [Row("a", 1.0, [], [], Some(50.0))];
      var best := Extreme(None, rows, false);
      Headline(rows) == Some(100.0) && best == Some(Timed(500000, "a")) && best.value.time < Round4(100.0)
  {
    var row := Row("a", 1.0, [], [], Some(50.0));
    var rows := [row];
    assert rows[1..] == [];
    assert HasSeconds(row) && row in rows;
    assert SumGood(rows) == 1.0 && SumBad(rows) == 0.0;
    assert Extreme(None, rows, false) == Extreme(Next(None, row, false), [], false);
    FloorIs(10000.0 * 50.0, 500000);
    FloorIs(10000.0 * 100.0, 1000000);
  }

  /** The rows listed as below the threshold are exactly those, lowest first. */
  lemma BelowExactly(rows: seq<Row>, threshold: real, x: Rated)
    ensures x in SortByTime(Below(rows, threshold)) <==>
      exists row :: row in rows && IsBelow(row, threshold) && x == Timed(Round4(Rate(row).value), row.id)
    ensures InTimeOrder(SortByTime(Below(rows, threshold)))
  {
    SortIsOrdered(Below(rows, threshold));
    BelowMembers(rows, threshold, x);
    assert x in SortByTime(Below(rows, threshold)) <==> x in multiset(SortByTime(Below(rows, threshold)));
    assert x in Below(rows, threshold) <==> x in multiset(Below(rows, threshold));
  }

  lemma {:induction false} BelowMembers(rows: seq<Row>, threshold: real, x: Rated)
    ensures x in Below(rows, threshold) <==>
      exists row :: row in rows && IsBelow(row, threshold) && x == Timed(Round4(Rate(row).value), row.id)
  {
    if rows == [] {
    } else {
      BelowMembers(rows[1..], threshold, x);
      assert rows == [rows[0]] + rows[1..];
    }
  }
}
