/** Log rows to incidents (reliability.py).

    One pass over an object's HARD alert rows opens and closes incidents. The reference is a clock: for
    every second, is the object in a HARD problem? */
module Reliability {
  import opened Basics
  import opened TimeOrder

  /** The `state_type` column; text is held stripped and upper-cased. */
  datatype StateType = Text(word: string) | Flag(flag: bool) | Number(n: int) | Missing

  /** A `/logs` row. `kind` is the `type` column, stripped and upper-cased; None is a column that does
      not convert to an integer. */
  datatype LogRow = LogRow(kind: string, stateType: StateType, time: Option<int>, state: Option<int>)

  type Row = Timed<int>

  datatype Incident = Incident(start: int, end: Option<int>, ongoing: bool, duration: int)

  predicate IsHard(st: StateType) {
    match st
    case Text(word) => word == "HARD"
    case Flag(_) => false
    case Number(n) => n == 1
    case Missing => false
  }

  predicate IsRelevant(r: LogRow) {
    && r.kind in {"HOST ALERT", "SERVICE ALERT"} && IsHard(r.stateType)
    && r.time.Some? && r.state.Some?
  }

  function Selected(entries: seq<LogRow>): seq<Row> {
    if entries == [] then []
    else if IsRelevant(entries[0])
    then [Timed(entries[0].time.value, entries[0].state.value)] + Selected(entries[1..])
    else Selected(entries[1..])
  }

  function RelevantRows(entries: seq<LogRow>): seq<Row> {
    SortByTime(Selected(entries))
  }

  /** A row of a host or service alert in a HARD state, by word or by number, with its second and its state. */
  predicate IsHardAlert(r: LogRow, t: int, state: int) {
    && (r.kind == "HOST ALERT" || r.kind == "SERVICE ALERT")
    && (r.stateType == Text("HARD") || r.stateType == Number(1))
    && r.time == Some(t) && r.state == Some(state)
  }

  function HardAlerts(entries: seq<LogRow>, t: int, state: int): nat {
    if entries == [] then 0
    else (if IsHardAlert(entries[0], t, state) then 1 else 0) + HardAlerts(entries[1..], t, state)
  }

  lemma {:induction false} SelectedAreHardAlerts(entries: seq<LogRow>, t: int, state: int)
    ensures multiset(Selected(entries))[Timed(t, state)] == HardAlerts(entries, t, state)
  {
    if entries == [] {
    } else {
      SelectedAreHardAlerts(entries[1..], t, state);
      var rest := Selected(entries[1..]);
      if IsRelevant(entries[0]) {
        assert Selected(entries) == [Timed(entries[0].time.value, entries[0].state.value)] + rest;
      }
    }
  }

  /** The rows reduced are the HARD alerts of the log, each as often as it was logged, in order of time. */
  lemma RowsAreHardAlerts(entries: seq<LogRow>, t: int, state: int)
    ensures InTimeOrder(RelevantRows(entries))
    ensures multiset(RelevantRows(entries))[Timed(t, state)] == HardAlerts(entries, t, state)
  {
    SortIsOrdered(Selected(entries));
    SelectedAreHardAlerts(entries, t, state);
  }

  /** `_incident`: an incident without end runs to the end of the window. */
  function MakeIncident(start: int, end: Option<int>, windowEnd: int): Incident {
    match end
    case None => Incident(start, None, true, Max(0, windowEnd - start))
    case Some(e) => Incident(start, end, false, Max(0, e - start))
  }

  // ---- The state machine ----------------------------------------------------------------------

  /** Closed incidents, and the start of the one in progress. */
  datatype Walk = Walk(closed: seq<Incident>, open: Option<int>)

  /** The state after the first `n` rows. */
  ghost function WalkTo(rows: seq<Row>, n: nat, windowStart: Option<int>, windowEnd: int): Walk
    requires n <= |rows|
  {
    if n == 0 then Walk([], None)
    else
      var w := WalkTo(rows, n - 1, windowStart, windowEnd);
      var t, state := rows[n - 1].time, rows[n - 1].item;
      if state != 0 then (if w.open.None? then w.(open := Some(t)) else w)
      else if w.open.Some? then
        Walk(w.closed + [MakeIncident(w.open.value, Some(t), windowEnd)], None)
      else if n == 1 && windowStart.Some? then
        Walk(w.closed + [MakeIncident(windowStart.value, Some(t), windowEnd)], None)
      else w
  }

  ghost function Incidents(rows: seq<Row>, windowStart: Option<int>, windowEnd: int): seq<Incident> {
    var w := WalkTo(rows, |rows|, windowStart, windowEnd);
    w.closed + if w.open.Some? then [MakeIncident(w.open.value, None, windowEnd)] else []
  }

  method ExtractIncidents(entries: seq<LogRow>, windowStart: Option<int>, windowEnd: int)
      returns (incidents: seq<Incident>)
    ensures incidents == Incidents(RelevantRows(entries), windowStart, windowEnd)
  {
    incidents := [];
    var inIncident := false;
    var start: Option<int> := None;
    var first := true;
    var rows := RelevantRows(entries);
    for n := 0 to |rows|
      invariant Walk(incidents, start) == WalkTo(rows, n, windowStart, windowEnd)
      invariant inIncident == start.Some?
      invariant first <==> n == 0
    {
      var t, state := rows[n].time, rows[n].item;
      if state != 0 {
        if !inIncident {
          inIncident := true;
          start := Some(t);
        }
      } else if inIncident && start.Some? {
        incidents := incidents + [MakeIncident(start.value, Some(t), windowEnd)];
        inIncident := false;
        start := None;
      } else if first && windowStart.Some? {
        incidents := incidents + [MakeIncident(windowStart.value, Some(t), windowEnd)];
      }
      first := false;
    }
    if inIncident && start.Some? {
      incidents := incidents + [MakeIncident(start.value, None, windowEnd)];
    }
  }

  // ---- The clock ------------------------------------------------------------------------------

  /** Row `i` is the latest one at second `s`. */
  ghost predicate IsLatest(rows: seq<Row>, i: int, s: int) {
    0 <= i < |rows| && rows[i].time <= s && forall j :: i < j < |rows| ==> s < rows[j].time
  }

  ghost predicate RecoversAfter(rows: seq<Row>, i: int) {
    exists j :: i < j < |rows| && 0 <= j && rows[j].item == 0
  }

  /** The object is in a HARD problem at second `s`: the latest row says so, and either the window is
      not over or the recovery is still to come; or the log opens with a recovery yet to come, in which
      case the problem dates from the start of the window. */
  ghost predicate DownAt(rows: seq<Row>, windowStart: Option<int>, windowEnd: int, s: int) {
    || (exists i :: IsLatest(rows, i, s) && rows[i].item != 0 && (s < windowEnd || RecoversAfter(rows, i)))
    || (rows != [] && s < rows[0].time && rows[0].item == 0 && windowStart.Some? && windowStart.value <= s)
  }

  predicate Within(inc: Incident, s: int) {
    inc.start <= s < inc.start + inc.duration
  }

  ghost predicate InSome(incidents: seq<Incident>, s: int) {
    exists k :: 0 <= k < |incidents| && Within(incidents[k], s)
  }

  lemma InSomeAppend(incidents: seq<Incident>, inc: Incident, s: int)
    ensures InSome(incidents + [inc], s) <==> InSome(incidents, s) || Within(inc, s)
  {
    if InSome(incidents, s) {
      var k :| 0 <= k < |incidents| && Within(incidents[k], s);
      assert Within((incidents + [inc])[k], s);
    }
    if Within(inc, s) {
      assert Within((incidents + [inc])[|incidents|], s);
    }
  }

  /** Whether the first `n` rows put the object in a problem at `s`, as far as they tell. */
  ghost predicate DownSoFar(rows: seq<Row>, n: nat, windowStart: Option<int>, s: int)
    requires n <= |rows|
  {
    n > 0 &&
    if rows[n - 1].time <= s then rows[n - 1].item != 0
    else if n == 1 then rows[0].item == 0 && windowStart.Some? && windowStart.value <= s
    else DownSoFar(rows, n - 1, windowStart, s)
  }

  /** What the walk knows after `n` rows about second `s`. */
  lemma {:induction false} WalkTracksClock(rows: seq<Row>, n: nat, windowStart: Option<int>, windowEnd: int, s: int)
    requires InTimeOrder(rows) && n <= |rows|
    ensures var w := WalkTo(rows, n, windowStart, windowEnd);
      && (w.open.Some? <==> n > 0 && rows[n - 1].item != 0)
      && (w.open.Some? ==> w.open.value <= rows[n - 1].time)
      && (InSome(w.closed, s) ==> n > 0 && s < rows[n - 1].time && (w.open.Some? ==> s < w.open.value))
      && (InSome(w.closed, s) || (w.open.Some? && w.open.value <= s) <==> DownSoFar(rows, n, windowStart, s))
      && (n == 0 ==> w.closed == [])
  {
    if n == 0 {
    } else {
      WalkTracksClock(rows, n - 1, windowStart, windowEnd, s);
      if n > 1 {
        EarlierIsNoLater(rows, n - 2, n - 1);
      }
      var w := WalkTo(rows, n - 1, windowStart, windowEnd);
      var t := rows[n - 1].time;
      if rows[n - 1].item == 0 && w.open.Some? {
        InSomeAppend(w.closed, MakeIncident(w.open.value, Some(t), windowEnd), s);
      } else if rows[n - 1].item == 0 && n == 1 && windowStart.Some? {
        InSomeAppend(w.closed, MakeIncident(windowStart.value, Some(t), windowEnd), s);
      }
    }
  }

  /** The recursion over rows says what the quantifiers say. */
  lemma {:induction false} DownSoFarMeans(rows: seq<Row>, n: nat, windowStart: Option<int>, s: int)
    requires InTimeOrder(rows) && 0 < n <= |rows|
    ensures DownSoFar(rows, n, windowStart, s) <==>
      || (exists i :: IsLatest(rows[..n], i, s) && rows[i].item != 0)
      || (s < rows[0].time && rows[0].item == 0 && windowStart.Some? && windowStart.value <= s)
  {
    var front := rows[..n];
    if rows[n - 1].time <= s {
      FirstIsEarliest(rows, n - 1);
      assert IsLatest(front, n - 1, s);
      forall i | IsLatest(front, i, s) ensures i == n - 1 {}
    } else if n > 1 {
      DownSoFarMeans(rows, n - 1, windowStart, s);
      forall i ensures IsLatest(front, i, s) <==> IsLatest(rows[..n - 1], i, s) {
        if IsLatest(front, i, s) { assert i < n - 1; }
        if IsLatest(rows[..n - 1], i, s) {
          forall j | i < j < |front| ensures s < front[j].time {
            if j < n - 1 { assert rows[..n - 1][j] == front[j]; }
          }
        }
      }
    } else {
      forall i ensures !IsLatest(front, i, s) {}
    }
  }

  /** An open incident dates from a problem row that no recovery follows, and before which the log
      either starts or has a recovery. */
  lemma {:induction false} OpenSince(rows: seq<Row>, n: nat, windowStart: Option<int>, windowEnd: int) returns (p: nat)
    requires n <= |rows| && WalkTo(rows, n, windowStart, windowEnd).open.Some?
    ensures p < n && rows[p].time == WalkTo(rows, n, windowStart, windowEnd).open.value
    ensures forall j :: p <= j < n ==> rows[j].item != 0
    ensures p > 0 ==> rows[p - 1].item == 0
  {
    var before := WalkTo(rows, n - 1, windowStart, windowEnd);
    if before.open.Some? {
      p := OpenSince(rows, n - 1, windowStart, windowEnd);
    } else {
      p := n - 1;
      OpenMeansProblem(rows, n - 1, windowStart, windowEnd);
    }
  }

  lemma {:induction false} OpenMeansProblem(rows: seq<Row>, n: nat, windowStart: Option<int>, windowEnd: int)
    requires n <= |rows|
    ensures WalkTo(rows, n, windowStart, windowEnd).open.Some? <==> n > 0 && rows[n - 1].item != 0
  {
    if n == 0 {
    } else {
      OpenMeansProblem(rows, n - 1, windowStart, windowEnd);
    }
  }

  /** For the latest row `i` at `s`, a problem: no recovery follows exactly when `s` falls in the
      incident left open. */
  lemma NoRecoveryExactly(rows: seq<Row>, i: int, windowStart: Option<int>, windowEnd: int, s: int)
    requires InTimeOrder(rows) && IsLatest(rows, i, s) && rows[i].item != 0
    ensures var open := WalkTo(rows, |rows|, windowStart, windowEnd).open;
      RecoversAfter(rows, i) <==> !(open.Some? && open.value <= s)
  {
    OpenMeansProblem(rows, |rows|, windowStart, windowEnd);
    if WalkTo(rows, |rows|, windowStart, windowEnd).open.Some? {
      var p := OpenSince(rows, |rows|, windowStart, windowEnd);
      if p > i {
        assert rows[p - 1].item == 0;
      } else {
        EarlierIsNoLater(rows, p, i);
      }
    } else {
      assert rows[|rows| - 1].item == 0;
    }
  }

  /** The incidents are the clock's problem seconds, exactly: for any rows, in or out of the window. */
  lemma IncidentsAreTheClock(rows: seq<Row>, windowStart: Option<int>, windowEnd: int, s: int)
    requires InTimeOrder(rows)
    ensures InSome(Incidents(rows, windowStart, windowEnd), s) <==> DownAt(rows, windowStart, windowEnd, s)
  {
    var w := WalkTo(rows, |rows|, windowStart, windowEnd);
    WalkTracksClock(rows, |rows|, windowStart, windowEnd, s);
    if w.open.Some? {
      InSomeAppend(w.closed, MakeIncident(w.open.value, None, windowEnd), s);
    } else {
      assert Incidents(rows, windowStart, windowEnd) == w.closed;
    }
    if rows != [] {
      DownSoFarMeans(rows, |rows|, windowStart, s);
      assert rows[..|rows|] == rows;
      forall i | IsLatest(rows, i, s) && rows[i].item != 0
        ensures RecoversAfter(rows, i) <==> !(w.open.Some? && w.open.value <= s)
      {
        NoRecoveryExactly(rows, i, windowStart, windowEnd, s);
      }
      forall i | IsLatest(rows, i, s) ensures rows[0].time <= s { FirstIsEarliest(rows, i); }
      if w.open.Some? && w.open.value <= s {
        var p := OpenSince(rows, |rows|, windowStart, windowEnd);
        FirstIsEarliest(rows, p);
      }
    }
  }

  // ---- Counting seconds -----------------------------------------------------------------------

  function Downtime(incidents: seq<Incident>): int {
    if incidents == [] then 0 else incidents[0].duration + Downtime(incidents[1..])
  }

  /** The seconds a, a + 1, ..., a + n - 1. */
  ghost function Range(a: int, n: nat): (r: set<int>)
    ensures |r| == n && forall s :: s in r <==> a <= s < a + n
  {
    if n == 0 then {} else Range(a, n - 1) + {a + n - 1}
  }

  ghost function Seconds(incidents: seq<Incident>): set<int> {
    if incidents == [] then {}
    else Range(incidents[0].start, Max(0, incidents[0].duration)) + Seconds(incidents[1..])
  }

  lemma {:induction false} SecondsAreInSome(incidents: seq<Incident>, s: int)
    ensures s in Seconds(incidents) <==> InSome(incidents, s)
  {
    if incidents == [] {
    } else {
      SecondsAreInSome(incidents[1..], s);
      assert incidents == [incidents[0]] + incidents[1..];
      if InSome(incidents[1..], s) {
        var k :| 0 <= k < |incidents[1..]| && Within(incidents[1..][k], s);
        assert Within(incidents[k + 1], s);
      }
      if InSome(incidents, s) {
        var k :| 0 <= k < |incidents| && Within(incidents[k], s);
        if k > 0 {
          assert Within(incidents[1..][k - 1], s);
        }
      }
    }
  }

  /** No second belongs to two incidents. */
  ghost predicate Disjoint(incidents: seq<Incident>) {
    forall k, l, s :: 0 <= k < l < |incidents| && Within(incidents[k], s) ==> !Within(incidents[l], s)
  }

  lemma {:induction false} DowntimeCountsSeconds(incidents: seq<Incident>)
    requires Disjoint(incidents) && forall k :: 0 <= k < |incidents| ==> incidents[k].duration >= 0
    ensures Downtime(incidents) == |Seconds(incidents)|
  {
    if incidents == [] {
    } else {
      var first := Range(incidents[0].start, incidents[0].duration);
      DowntimeCountsSeconds(incidents[1..]);
      forall s | s in first ensures s !in Seconds(incidents[1..]) {
        SecondsAreInSome(incidents[1..], s);
        assert Within(incidents[0], s);
      }
      assert first !! Seconds(incidents[1..]);
    }
  }

  lemma DisjointAppend(incidents: seq<Incident>, inc: Incident)
    requires Disjoint(incidents) && forall s :: Within(inc, s) ==> !InSome(incidents, s)
    ensures Disjoint(incidents + [inc])
  {
    var all := incidents + [inc];
    forall k, l, s | 0 <= k < l < |all| && Within(all[k], s) ensures !Within(all[l], s) {
      if l == |incidents| {
        assert Within(incidents[k], s);
      }
    }
  }

  lemma {:induction false} ClosedAreDisjoint(rows: seq<Row>, n: nat, windowStart: Option<int>, windowEnd: int)
    requires InTimeOrder(rows) && n <= |rows|
    ensures Disjoint(WalkTo(rows, n, windowStart, windowEnd).closed)
  {
    if n == 0 {
    } else {
      ClosedAreDisjoint(rows, n - 1, windowStart, windowEnd);
      var w := WalkTo(rows, n - 1, windowStart, windowEnd);
      var t := rows[n - 1].time;
      forall s ensures w.open.Some? && InSome(w.closed, s) ==> s < w.open.value
               ensures n == 1 ==> w.closed == []
      {
        WalkTracksClock(rows, n - 1, windowStart, windowEnd, s);
      }
      if rows[n - 1].item == 0 && w.open.Some? {
        DisjointAppend(w.closed, MakeIncident(w.open.value, Some(t), windowEnd));
      } else if rows[n - 1].item == 0 && n == 1 && windowStart.Some? {
        DisjointAppend([], MakeIncident(windowStart.value, Some(t), windowEnd));
      }
    }
  }

  lemma IncidentsAreDisjoint(rows: seq<Row>, windowStart: Option<int>, windowEnd: int)
    requires InTimeOrder(rows)
    ensures Disjoint(Incidents(rows, windowStart, windowEnd))
  {
    var w := WalkTo(rows, |rows|, windowStart, windowEnd);
    ClosedAreDisjoint(rows, |rows|, windowStart, windowEnd);
    if w.open.Some? {
      forall s | InSome(w.closed, s) ensures s < w.open.value {
        WalkTracksClock(rows, |rows|, windowStart, windowEnd, s);
      }
      DisjointAppend(w.closed, MakeIncident(w.open.value, None, windowEnd));
    } else {
      assert Incidents(rows, windowStart, windowEnd) == w.closed;
    }
  }

  lemma {:induction false} DurationsAreNonNegative(rows: seq<Row>, n: nat, windowStart: Option<int>, windowEnd: int)
    requires n <= |rows|
    ensures forall k :: 0 <= k < |WalkTo(rows, n, windowStart, windowEnd).closed| ==>
      && WalkTo(rows, n, windowStart, windowEnd).closed[k].duration >= 0
      && !WalkTo(rows, n, windowStart, windowEnd).closed[k].ongoing
  {
    if n == 0 {
    } else {
      DurationsAreNonNegative(rows, n - 1, windowStart, windowEnd);
    }
  }

  /** Total downtime is the number of seconds the clock shows a problem: over any stretch long enough
      to hold them all, and with no assumption that the rows lie in the window. */
  lemma DowntimeIsProblemSeconds(rows: seq<Row>, windowStart: Option<int>, windowEnd: int, lo: int, hi: int)
    requires InTimeOrder(rows)
    requires forall s :: DownAt(rows, windowStart, windowEnd, s) ==> lo <= s < hi
    ensures Downtime(Incidents(rows, windowStart, windowEnd)) ==
      |set s | lo <= s < hi && DownAt(rows, windowStart, windowEnd, s)|
  {
    var incidents := Incidents(rows, windowStart, windowEnd);
    IncidentsAreDisjoint(rows, windowStart, windowEnd);
    DurationsAreNonNegative(rows, |rows|, windowStart, windowEnd);
    DowntimeCountsSeconds(incidents);
    forall s ensures s in Seconds(incidents) <==> DownAt(rows, windowStart, windowEnd, s) {
      SecondsAreInSome(incidents, s);
      IncidentsAreTheClock(rows, windowStart, windowEnd, s);
    }
    assert Seconds(incidents) == set s | lo <= s < hi && DownAt(rows, windowStart, windowEnd, s);
  }

  /** At most one incident is ongoing, and it is the last; there is one exactly when the last HARD row
      is a problem. */
  lemma OnlyLastIsOngoing(rows: seq<Row>, windowStart: Option<int>, windowEnd: int)
    ensures var incidents := Incidents(rows, windowStart, windowEnd);
      && (forall k :: 0 <= k < |incidents| && incidents[k].ongoing ==> k == |incidents| - 1)
      && ((exists k :: 0 <= k < |incidents| && incidents[k].ongoing) <==>
            rows != [] && rows[|rows| - 1].item != 0)
  {
    DurationsAreNonNegative(rows, |rows|, windowStart, windowEnd);
    OpenMeansProblem(rows, |rows|, windowStart, windowEnd);
    var w := WalkTo(rows, |rows|, windowStart, windowEnd);
    var incidents := Incidents(rows, windowStart, windowEnd);
    if w.open.Some? {
      assert incidents[|incidents| - 1].ongoing;
    } else {
      assert incidents == w.closed;
    }
  }

  // ---- Inside the window ----------------------------------------------------------------------

  ghost predicate InWindow(rows: seq<Row>, windowStart: int, windowEnd: int) {
    windowStart <= windowEnd && forall i :: 0 <= i < |rows| ==> windowStart <= rows[i].time <= windowEnd
  }

  /** One after the other, and inside [from, to]. */
  ghost predicate InSequence(incidents: seq<Incident>, from: int, to: int) {
    && (forall k :: 0 <= k < |incidents| ==>
          from <= incidents[k].start && incidents[k].start + incidents[k].duration <= to)
    && (forall k, l :: 0 <= k < l < |incidents| ==>
          incidents[k].start + incidents[k].duration <= incidents[l].start)
  }

  lemma {:induction false} ClosedInSequence(rows: seq<Row>, n: nat, windowStart: int, windowEnd: int)
    requires InTimeOrder(rows) && n <= |rows| && InWindow(rows, windowStart, windowEnd)
    ensures var w := WalkTo(rows, n, Some(windowStart), windowEnd);
      var now := if n == 0 then windowStart else rows[n - 1].time;
      && InSequence(w.closed, windowStart, if w.open.Some? then w.open.value else now)
      && (w.open.Some? ==> windowStart <= w.open.value <= now)
  {
    if n == 0 {
    } else {
      ClosedInSequence(rows, n - 1, windowStart, windowEnd);
      if n > 1 {
        EarlierIsNoLater(rows, n - 2, n - 1);
      }
    }
  }

  /** For rows inside the window, incidents come in order, without overlap and inside the window. */
  lemma IncidentsInSequence(rows: seq<Row>, windowStart: int, windowEnd: int)
    requires InTimeOrder(rows) && InWindow(rows, windowStart, windowEnd)
    ensures InSequence(Incidents(rows, Some(windowStart), windowEnd), windowStart, windowEnd)
  {
    ClosedInSequence(rows, |rows|, windowStart, windowEnd);
  }

  /** So downtime never exceeds the window. */
  lemma DowntimeFitsWindow(rows: seq<Row>, windowStart: int, windowEnd: int)
    requires InTimeOrder(rows) && InWindow(rows, windowStart, windowEnd)
    ensures 0 <= Downtime(Incidents(rows, Some(windowStart), windowEnd)) <= windowEnd - windowStart
  {
    var incidents := Incidents(rows, Some(windowStart), windowEnd);
    IncidentsInSequence(rows, windowStart, windowEnd);
    IncidentsAreDisjoint(rows, Some(windowStart), windowEnd);
    DurationsAreNonNegative(rows, |rows|, Some(windowStart), windowEnd);
    DowntimeCountsSeconds(incidents);
    forall s | s in Seconds(incidents) ensures s in Range(windowStart, windowEnd - windowStart) {
      SecondsAreInSome(incidents, s);
    }
    Fewer(Seconds(incidents), Range(windowStart, windowEnd - windowStart));
  }

  // ---- The summary ----------------------------------------------------------------------------

  /** `round(total / n)`: to the nearest integer, ties to the even one. */
  function RoundedMean(total: int, n: int): (r: int)
    requires n > 0
    ensures -n <= 2 * (r * n - total) <= n
    ensures 2 * (r * n - total) == n || 2 * (r * n - total) == -n ==> r % 2 == 0
  {
    var q, rest := total / n, total % n;
    assert total == q * n + rest;
    assert (q + 1) * n == q * n + n;
    if 2 * rest < n || (2 * rest == n && q % 2 == 0) then q else q + 1
  }

  function Starts(incidents: seq<Incident>): seq<Row> {
    if incidents == [] then [] else [Timed(incidents[0].start, 0)] + Starts(incidents[1..])
  }

  function GapSum(starts: seq<Row>): int {
    if |starts| <= 1 then 0 else starts[1].time - starts[0].time + GapSum(starts[1..])
  }

  lemma {:induction false} GapsTelescope(starts: seq<Row>)
    requires starts != []
    ensures GapSum(starts) == starts[|starts| - 1].time - starts[0].time
  {
    if |starts| > 1 {
      GapsTelescope(starts[1..]);
    }
  }

  function Recovered(incidents: seq<Incident>): seq<Incident> {
    if incidents == [] then []
    else if incidents[0].ongoing then Recovered(incidents[1..])
    else [incidents[0]] + Recovered(incidents[1..])
  }

  function Longest(incidents: seq<Incident>): int {
    if incidents == [] then 0
    else if |incidents| == 1 then incidents[0].duration
    else Max(incidents[0].duration, Longest(incidents[1..]))
  }

  datatype Summary = Summary(incidents: nat, mttr: Option<int>, mtbf: Option<int>, downtime: int,
                             longest: int, ongoing: bool)

  function Summarize(incidents: seq<Incident>): Summary {
    var recovered := Recovered(incidents);
    var starts := SortByTime(Starts(incidents));
    Summary(
      |incidents|,
      if recovered == [] then None else Some(RoundedMean(Downtime(recovered), |recovered|)),
      if |incidents| < 2 || |starts| < 2 then None else Some(RoundedMean(GapSum(starts), |starts| - 1)),
      Downtime(incidents),
      Longest(incidents),
      exists k :: 0 <= k < |incidents| && incidents[k].ongoing)
  }

  lemma {:induction false} StartsAre(incidents: seq<Incident>)
    ensures |Starts(incidents)| == |incidents|
    ensures forall k :: 0 <= k < |incidents| ==> Starts(incidents)[k].time == incidents[k].start
  {
    if incidents == [] {
    } else {
      StartsAre(incidents[1..]);
    }
  }

  lemma {:induction false} StartsInOrder(incidents: seq<Incident>)
    requires forall k, l :: 0 <= k < l < |incidents| ==> incidents[k].start <= incidents[l].start
    ensures InTimeOrder(Starts(incidents))
  {
    if incidents == [] {
    } else {
      StartsInOrder(incidents[1..]);
      StartsAre(incidents);
      assert Starts(incidents)[1..] == Starts(incidents[1..]);
    }
  }

  /** MTBF is the first-to-last distance over the number of gaps, to the nearest second. */
  lemma MtbfTelescopes(rows: seq<Row>, windowStart: int, windowEnd: int)
    requires InTimeOrder(rows) && InWindow(rows, windowStart, windowEnd)
    ensures var incidents := Incidents(rows, Some(windowStart), windowEnd);
      var n := |incidents|;
      Summarize(incidents).mtbf ==
        if n < 2 then None
        else Some(RoundedMean(incidents[n - 1].start - incidents[0].start, n - 1))
  {
    var incidents := Incidents(rows, Some(windowStart), windowEnd);
    IncidentsInSequence(rows, windowStart, windowEnd);
    StartsDoNotDecrease(incidents, windowStart, windowEnd, rows);
    MeanGap(incidents);
  }

  lemma StartsDoNotDecrease(incidents: seq<Incident>, from: int, to: int, rows: seq<Row>)
    requires incidents == Incidents(rows, Some(from), to) && InSequence(incidents, from, to)
    ensures forall k, l :: 0 <= k < l < |incidents| ==> incidents[k].start <= incidents[l].start
  {
    DurationsAreNonNegative(rows, |rows|, Some(from), to);
  }

  lemma MeanGap(incidents: seq<Incident>)
    requires forall k, l :: 0 <= k < l < |incidents| ==> incidents[k].start <= incidents[l].start
    ensures var n := |incidents|;
      Summarize(incidents).mtbf ==
        if n < 2 then None
        else Some(RoundedMean(incidents[n - 1].start - incidents[0].start, n - 1))
  {
    StartsAre(incidents);
    StartsInOrder(incidents);
    SortedStays(Starts(incidents));
    var starts := Starts(incidents);
    assert SortByTime(starts) == starts;
    if |incidents| >= 2 {
      GapsTelescope(starts);
      assert GapSum(starts) == incidents[|incidents| - 1].start - incidents[0].start;
    }
  }

  /** MTTR averages all incidents but the ongoing one, which can only be the last. */
  lemma MttrLeavesOutOngoing(rows: seq<Row>, windowStart: Option<int>, windowEnd: int)
    ensures var incidents := Incidents(rows, windowStart, windowEnd);
      var closed := if rows != [] && rows[|rows| - 1].item != 0 then incidents[..|incidents| - 1] else incidents;
      && Recovered(incidents) == closed
      && Summarize(incidents).mttr == if closed == [] then None else Some(RoundedMean(Downtime(closed), |closed|))
  {
    DurationsAreNonNegative(rows, |rows|, windowStart, windowEnd);
    OpenMeansProblem(rows, |rows|, windowStart, windowEnd);
    var w := WalkTo(rows, |rows|, windowStart, windowEnd);
    var incidents := Incidents(rows, windowStart, windowEnd);
    AllRecovered(w.closed, []);
    if w.open.Some? {
      AllRecovered(w.closed, [MakeIncident(w.open.value, None, windowEnd)]);
      assert incidents[..|incidents| - 1] == w.closed;
    } else {
      assert incidents == w.closed + [];
    }
  }

  lemma {:induction false} AllRecovered(closed: seq<Incident>, rest: seq<Incident>)
    requires forall k :: 0 <= k < |closed| ==> !closed[k].ongoing
    ensures Recovered(closed + rest) == closed + Recovered(rest)
  {
    if closed == [] {
      assert closed + rest == rest;
    } else {
      AllRecovered(closed[1..], rest);
      assert (closed + rest)[1..] == closed[1..] + rest;
    }
  }

  /** `longest` is the duration of an incident, and of none shorter than another. */
  lemma {:induction false} LongestIsMaximum(incidents: seq<Incident>) returns (k: nat)
    requires incidents != []
    ensures k < |incidents| && incidents[k].duration == Longest(incidents)
    ensures forall l :: 0 <= l < |incidents| ==> incidents[l].duration <= Longest(incidents)
  {
    k := 0;
    if |incidents| > 1 {
      var l := LongestIsMaximum(incidents[1..]);
      if incidents[0].duration < Longest(incidents[1..]) {
        k := l + 1;
      }
    }
  }

  /** The summary, told by the rows: how many incidents, for how many seconds the clock shows a problem, the longest
      incident, and whether the last HARD row is a problem. */
  lemma SummaryMeans(rows: seq<Row>, windowStart: Option<int>, windowEnd: int, lo: int, hi: int)
    requires InTimeOrder(rows)
    requires forall s :: DownAt(rows, windowStart, windowEnd, s) ==> lo <= s < hi
    ensures var incidents := Incidents(rows, windowStart, windowEnd);
      var summary := Summarize(incidents);
      && summary.incidents == |incidents|
      && summary.downtime == |set s | lo <= s < hi && DownAt(rows, windowStart, windowEnd, s)|
      && (summary.ongoing <==> rows != [] && rows[|rows| - 1].item != 0)
      && (forall k :: 0 <= k < |incidents| ==> incidents[k].duration <= summary.longest)
      && (if incidents == [] then summary.longest == 0
          else exists k :: 0 <= k < |incidents| && incidents[k].duration == summary.longest)
  {
    var incidents := Incidents(rows, windowStart, windowEnd);
    DowntimeIsProblemSeconds(rows, windowStart, windowEnd, lo, hi);
    OnlyLastIsOngoing(rows, windowStart, windowEnd);
    if incidents != [] {
      var k := LongestIsMaximum(incidents);
    }
  }
}
