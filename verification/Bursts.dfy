/** Concurrent-failure bursts: the sliding window and the interval merge of
    `thruk_concurrent_failures` (tools/triage.py).

    The one-pass code keeps a queue of the events within `width` seconds before the current one and a
    counter per host. It replaced a scan that restarted at every event; `QuadraticHit` is that scan. */
module Bursts {
  import opened Basics
  import opened TimeOrder

  type Host = string
  type Event = Timed<Host>

  datatype Span = Span(start: int, end: int, hosts: set<Host>)

  /** The answer, or the exception of `window_dq[0]` on an empty queue. */
  datatype Outcome = IndexError | Found(bursts: seq<Span>)

  // ---- Reference definitions -----------------------------------------------------------------

  ghost function HostsAt(events: seq<Event>, lo: nat, hi: nat): set<Host>
    requires hi <= |events|
  {
    set i | lo <= i < hi :: events[i].item
  }

  /** The hosts of the events timed within [from, to], among the first `n`. */
  ghost function HostsTimed(events: seq<Event>, n: nat, from: int, to: int): set<Host>
    requires n <= |events|
  {
    set i | 0 <= i < n && from <= events[i].time <= to :: events[i].item
  }

  /** The superseded scan: starting at event `i`, enough distinct hosts within `width` seconds. */
  ghost predicate QuadraticHit(events: seq<Event>, width: int, minHosts: int, i: nat)
    requires i < |events|
  {
    |set j | i <= j < |events| && events[j].time <= events[i].time + width :: events[j].item| >= minHosts
  }

  // ---- What the loops compute ----------------------------------------------------------------

  /** The first of the events `[..n]` that is not before `bound`, searching from `lo`. */
  function LeftEdge(events: seq<Event>, n: nat, bound: int, lo: nat): (e: nat)
    requires lo <= n <= |events|
    ensures lo <= e <= n && (e < n ==> events[e].time >= bound)
    ensures forall j :: lo <= j < e ==> events[j].time < bound
    decreases n - lo
  {
    if lo == n || events[lo].time >= bound then lo else LeftEdge(events, n, bound, lo + 1)
  }

  /** Where the window that ends with event `i` begins. */
  function WindowStart(events: seq<Event>, width: int, i: nat): (e: nat)
    requires i < |events|
    ensures e <= i + 1
  {
    LeftEdge(events, i + 1, events[i].time - width, 0)
  }

  ghost predicate IsHit(events: seq<Event>, width: int, minHosts: int, i: nat)
    requires i < |events|
  {
    |HostsAt(events, WindowStart(events, width, i), i + 1)| >= minHosts
  }

  ghost predicate Crashes(events: seq<Event>, width: int, minHosts: int) {
    events != [] && width < 0 && minHosts <= 0
  }

  ghost function HitSpan(events: seq<Event>, width: int, i: nat): Span
    requires i < |events| && WindowStart(events, width, i) <= i
  {
    var lo := WindowStart(events, width, i);
    Span(events[lo].time, events[i].time, HostsAt(events, lo, i + 1))
  }

  lemma WindowIsNonEmpty(events: seq<Event>, width: int, minHosts: int, i: nat)
    requires i < |events| && !Crashes(events, width, minHosts) && IsHit(events, width, minHosts, i)
    ensures WindowStart(events, width, i) <= i
  {
  }

  ghost function HitsUpTo(events: seq<Event>, width: int, minHosts: int, n: nat): seq<Span>
    requires n <= |events| && !Crashes(events, width, minHosts)
  {
    if n == 0 then []
    else
      var before := HitsUpTo(events, width, minHosts, n - 1);
      if IsHit(events, width, minHosts, n - 1)
      then WindowIsNonEmpty(events, width, minHosts, n - 1); before + [HitSpan(events, width, n - 1)]
      else before
  }

  /** One turn of the merge loop: grow the last burst or open a new one. */
  function Absorb(merged: seq<Span>, w: Span): seq<Span> {
    if merged != [] && w.start <= merged[|merged| - 1].end then
      var last := merged[|merged| - 1];
      merged[..|merged| - 1] + [Span(last.start, Max(last.end, w.end), last.hosts + w.hosts)]
    else merged + [w]
  }

  function MergeUpTo(hits: seq<Span>, k: nat): seq<Span>
    requires k <= |hits|
  {
    if k == 0 then [] else Absorb(MergeUpTo(hits, k - 1), hits[k - 1])
  }

  ghost function BurstsSpec(events: seq<Event>, width: int, minHosts: int): seq<Span>
    requires !Crashes(events, width, minHosts)
  {
    var hits := HitsUpTo(events, width, minHosts, |events|);
    MergeUpTo(hits, |hits|)
  }

  // ---- The code ------------------------------------------------------------------------------

  ghost function Names(s: seq<Event>): seq<Host> {
    seq(|s|, i requires 0 <= i < |s| => s[i].item)
  }

  /** The counter agrees with the queue: one entry per host present, none left at zero. */
  ghost predicate Counts(counts: map<Host, int>, queue: seq<Event>) {
    && (forall h :: h in counts <==> h in Names(queue))
    && (forall h :: h in counts ==> counts[h] == multiset(Names(queue))[h])
  }

  lemma CountIn(counts: map<Host, int>, queue: seq<Event>, e: Event)
    requires Counts(counts, queue)
    ensures Counts(counts[e.item := (if e.item in counts then counts[e.item] else 0) + 1], queue + [e])
  {
    assert Names(queue + [e]) == Names(queue) + [e.item];
  }

  lemma CountOut(counts: map<Host, int>, queue: seq<Event>)
    requires queue != [] && Counts(counts, queue)
    ensures queue[0].item in counts
    ensures var h := queue[0].item; var left := counts[h] - 1;
      Counts(if left == 0 then counts - {h} else counts[h := left], queue[1..])
  {
    var h := queue[0].item;
    assert Names(queue) == [h] + Names(queue[1..]);
    assert Names(queue)[0] in Names(queue);
    forall x ensures x in Names(queue[1..]) <==> multiset(Names(queue[1..]))[x] > 0 { }
  }

  /** The queue holds the events `[lo..hi]`. */
  ghost predicate IsQueue(events: seq<Event>, lo: nat, hi: nat, queue: seq<Event>) {
    lo <= hi <= |events| && |queue| == hi - lo && forall k :: 0 <= k < |queue| ==> queue[k] == events[lo + k]
  }

  lemma CountedHosts(counts: map<Host, int>, events: seq<Event>, lo: nat, hi: nat, queue: seq<Event>)
    requires IsQueue(events, lo, hi, queue) && Counts(counts, queue)
    ensures counts.Keys == HostsAt(events, lo, hi)
  {
    forall h ensures h in counts.Keys <==> h in HostsAt(events, lo, hi) {
      if h in Names(queue) {
        var k :| 0 <= k < |queue| && Names(queue)[k] == h;
        assert events[lo + k].item == h;
      }
      if h in HostsAt(events, lo, hi) {
        var i :| lo <= i < hi && events[i].item == h;
        assert queue[i - lo] == events[i] && Names(queue)[i - lo] == h;
      }
    }
  }

  lemma LeftEdgeIs(events: seq<Event>, n: nat, bound: int, lo: nat)
    requires lo <= n <= |events| && (lo < n ==> events[lo].time >= bound)
    requires forall j :: 0 <= j < lo ==> events[j].time < bound
    ensures LeftEdge(events, n, bound, 0) == lo
  {
    var e := LeftEdge(events, n, bound, 0);
  }

  /** The counter forgets the front of the queue. */
  method Evict(queue: seq<Event>, counts0: map<Host, int>) returns (counts: map<Host, int>)
    requires queue != [] && Counts(counts0, queue)
    ensures Counts(counts, queue[1..])
  {
    CountOut(counts0, queue);
    var h := queue[0].item;
    counts := counts0[h := counts0[h] - 1];
    if counts[h] == 0 {
      counts := counts - {h};
      assert counts == counts0 - {h};
    }
  }

  /** The inner loop: drop what is before `bound` from the front. */
  method EvictOld(ghost events: seq<Event>, ghost lo0: nat, ghost hi: nat,
                  queue0: seq<Event>, counts0: map<Host, int>, bound: int)
      returns (queue: seq<Event>, counts: map<Host, int>)
    requires IsQueue(events, lo0, hi, queue0) && Counts(counts0, queue0)
    requires forall j :: 0 <= j < lo0 ==> events[j].time < bound
    ensures IsQueue(events, LeftEdge(events, hi, bound, 0), hi, queue) && Counts(counts, queue)
  {
    queue, counts := queue0, counts0;
    ghost var lo := lo0;
    while queue != [] && queue[0].time < bound
      invariant lo >= 0 && IsQueue(events, lo, hi, queue) && Counts(counts, queue)
      invariant forall j :: 0 <= j < lo ==> events[j].time < bound
      decreases |queue|
    {
      assert events[lo].time < bound;
      counts := Evict(queue, counts);
      queue, lo := queue[1..], lo + 1;
    }
    LeftEdgeIs(events, hi, bound, lo);
  }

  lemma EarlierStaysOut(events: seq<Event>, width: int, i: nat)
    requires InTimeOrder(events) && 0 < i < |events|
    ensures forall j :: 0 <= j < WindowStart(events, width, i - 1) ==> events[j].time < events[i].time - width
  {
    EarlierIsNoLater(events, i - 1, i);
  }

  /** One event enters on the right, and those out of its window leave on the left. */
  method Slide(events: seq<Event>, width: int, i: nat, queue0: seq<Event>, counts0: map<Host, int>, ghost lo: nat)
      returns (queue: seq<Event>, counts: map<Host, int>)
    requires InTimeOrder(events) && i < |events|
    requires IsQueue(events, lo, i, queue0) && Counts(counts0, queue0)
    requires if i == 0 then lo == 0 else lo == WindowStart(events, width, i - 1)
    ensures IsQueue(events, WindowStart(events, width, i), i + 1, queue) && Counts(counts, queue)
  {
    var e := events[i];
    CountIn(counts0, queue0, e);
    counts := counts0[e.item := (if e.item in counts0 then counts0[e.item] else 0) + 1];
    if i > 0 {
      EarlierStaysOut(events, width, i);
    }
    queue, counts := EvictOld(events, lo, i + 1, queue0 + [e], counts, e.time - width);
  }

  /** The queue runs empty exactly when the width is negative. */
  lemma NegativeWidthEmpties(events: seq<Event>, width: int, i: nat)
    requires InTimeOrder(events) && i < |events|
    ensures WindowStart(events, width, i) == i + 1 <==> width < 0
    ensures width < 0 ==> HostsAt(events, WindowStart(events, width, i), i + 1) == {}
  {
    if width < 0 {
      AllPairsInOrder(events);
      LeftEdgeIs(events, i + 1, events[i].time - width, i + 1);
    }
  }

  /** What the loop body may report for event `i`. */
  lemma ReportIs(events: seq<Event>, width: int, minHosts: int, i: nat, queue: seq<Event>)
    requires InTimeOrder(events) && i < |events| && IsQueue(events, WindowStart(events, width, i), i + 1, queue)
    ensures IsHit(events, width, minHosts, i) ==> (queue == [] <==> Crashes(events, width, minHosts))
    ensures !Crashes(events, width, minHosts) ==>
      HitsUpTo(events, width, minHosts, i + 1) ==
        HitsUpTo(events, width, minHosts, i) +
        (if IsHit(events, width, minHosts, i)
         then [Span(queue[0].time, events[i].time, HostsAt(events, WindowStart(events, width, i), i + 1))] else [])
    ensures Crashes(events, width, minHosts) ==> IsHit(events, width, minHosts, i)
  {
    NegativeWidthEmpties(events, width, i);
    if IsHit(events, width, minHosts, i) && !Crashes(events, width, minHosts) {
      WindowIsNonEmpty(events, width, minHosts, i);
    }
  }

  /** One turn of the loop, told by what the queue and the counter hold. */
  lemma TurnIs(events: seq<Event>, width: int, minHosts: int, i: nat, queue: seq<Event>, counts: map<Host, int>)
    requires InTimeOrder(events) && i < |events| && IsQueue(events, WindowStart(events, width, i), i + 1, queue)
    requires Counts(counts, queue)
    ensures |counts.Keys| >= minHosts ==> (queue == [] <==> Crashes(events, width, minHosts))
    ensures |counts.Keys| < minHosts ==> !Crashes(events, width, minHosts)
    ensures !Crashes(events, width, minHosts) ==>
      HitsUpTo(events, width, minHosts, i + 1) == HitsUpTo(events, width, minHosts, i) +
        if |counts.Keys| >= minHosts then [Span(queue[0].time, events[i].time, counts.Keys)] else []
  {
    CountedHosts(counts, events, WindowStart(events, width, i), i + 1, queue);
    ReportIs(events, width, minHosts, i, queue);
  }

  /** The first loop: append, count, evict from the left, report. */
  method ScanWindows(events: seq<Event>, width: int, minHosts: int) returns (ok: bool, hits: seq<Span>)
    requires InTimeOrder(events)
    ensures ok <==> !Crashes(events, width, minHosts)
    ensures ok ==> hits == HitsUpTo(events, width, minHosts, |events|)
  {
    hits := [];
    var queue: seq<Event> := [];
    var counts: map<Host, int> := map[];
    ghost var lo: nat := 0;
    for i := 0 to |events|
      invariant i > 0 ==> !Crashes(events, width, minHosts)
      invariant !Crashes(events, width, minHosts) ==> hits == HitsUpTo(events, width, minHosts, i)
      invariant IsQueue(events, lo, i, queue) && Counts(counts, queue)
      invariant if i == 0 then lo == 0 else lo == WindowStart(events, width, i - 1)
    {
      queue, counts := Slide(events, width, i, queue, counts, lo);
      lo := WindowStart(events, width, i);
      TurnIs(events, width, minHosts, i, queue, counts);
      if |counts.Keys| >= minHosts {
        if queue == [] {
          return false, hits;
        }
        hits := hits + [Span(queue[0].time, events[i].time, counts.Keys)];
      }
    }
    return true, hits;
  }

  /** The second loop. */
  method MergeHits(hits: seq<Span>) returns (merged: seq<Span>)
    ensures merged == MergeUpTo(hits, |hits|)
  {
    merged := [];
    for k := 0 to |hits|
      invariant merged == MergeUpTo(hits, k)
    {
      var w := hits[k];
      if merged != [] && w.start <= merged[|merged| - 1].end {
        var last := merged[|merged| - 1];
        merged := merged[|merged| - 1 := Span(last.start, Max(last.end, w.end), last.hosts + w.hosts)];
      } else {
        merged := merged + [w];
      }
    }
  }

  /** A log row: a time of 0 or an empty host name stands for a missing one. */
  datatype AlertRow = AlertRow(time: int, host: string)

  function ValidEvents(rows: seq<AlertRow>): seq<Event> {
    if rows == [] then []
    else if rows[0].time != 0 && rows[0].host != "" then
      [Timed(rows[0].time, rows[0].host)] + ValidEvents(rows[1..])
    else ValidEvents(rows[1..])
  }

  /** What the tool answers on the rows it fetched, with the window in seconds. */
  ghost function Detected(rows: seq<AlertRow>, width: int, minHosts: int): Outcome {
    var events := SortByTime(ValidEvents(rows));
    if Crashes(events, width, minHosts) then IndexError else Found(BurstsSpec(events, width, minHosts))
  }

  method DetectBursts(rows: seq<AlertRow>, windowMinutes: int, minHosts: int) returns (out: Outcome)
    ensures out == Detected(rows, 60 * windowMinutes, minHosts)
  {
    var width := windowMinutes * 60;
    var events := SortByTime(ValidEvents(rows));
    SortIsOrdered(ValidEvents(rows));
    var ok, hits := ScanWindows(events, width, minHosts);
    if !ok {
      return IndexError;
    }
    var merged := MergeHits(hits);
    return Found(merged);
  }

  // ---- What the bursts mean ------------------------------------------------------------------

  ghost predicate HitInside(events: seq<Event>, width: int, minHosts: int, i: nat, b: Span)
    requires i < |events|
  {
    && IsHit(events, width, minHosts, i)
    && WindowStart(events, width, i) <= i
    && b.start <= events[WindowStart(events, width, i)].time
    && events[i].time <= b.end
  }

  /** Each burst runs from the start of one hit to the end of another, with no gap in between. */
  ghost predicate MadeOfHits(events: seq<Event>, width: int, minHosts: int, n: nat, b: Span)
    requires n <= |events|
  {
    && (exists i :: 0 <= i < n && HitInside(events, width, minHosts, i, b)
          && events[WindowStart(events, width, i)].time == b.start)
    && (exists i :: 0 <= i < n && HitInside(events, width, minHosts, i, b) && events[i].time == b.end)
    && (forall t :: Within(b, t) ==> CoveredBy(events, width, minHosts, n, b, t))
  }

  predicate Within(b: Span, t: int) {
    b.start <= t <= b.end
  }

  ghost predicate CoveredBy(events: seq<Event>, width: int, minHosts: int, n: nat, b: Span, t: int)
    requires n <= |events|
  {
    exists i :: 0 <= i < n && HitInside(events, width, minHosts, i, b)
      && events[WindowStart(events, width, i)].time <= t <= events[i].time
  }

  /** A burst as it should be after the first `n` events. */
  ghost predicate IsBurst(events: seq<Event>, width: int, minHosts: int, n: nat, b: Span)
    requires n <= |events|
  {
    && b.start <= b.end
    && b.hosts == HostsTimed(events, n, b.start, b.end)
    && MadeOfHits(events, width, minHosts, n, b)
  }

  ghost predicate All<T>(s: seq<T>, p: T -> bool) {
    forall k :: 0 <= k < |s| ==> p(s[k])
  }

  lemma AllSoFar<T>(s: seq<T>, x: T, p: T -> bool)
    requires All(s, p) && p(x)
    ensures All(s + [x], p)
  {
  }

  ghost predicate AllBursts(events: seq<Event>, width: int, minHosts: int, n: nat, bursts: seq<Span>)
    requires n <= |events|
  {
    All(bursts, b => IsBurst(events, width, minHosts, n, b))
  }

  ghost predicate Apart(bursts: seq<Span>) {
    forall k, l :: 0 <= k < l < |bursts| ==> bursts[k].end < bursts[l].start
  }

  ghost predicate InSome(events: seq<Event>, width: int, minHosts: int, i: nat, bursts: seq<Span>)
    requires i < |events|
  {
    exists k :: 0 <= k < |bursts| && HitInside(events, width, minHosts, i, bursts[k])
  }

  lemma MergePrefix(hits: seq<Span>, w: Span, k: nat)
    requires k <= |hits|
    ensures MergeUpTo(hits + [w], k) == MergeUpTo(hits, k)
  {
    if k == 0 {
    } else {
      MergePrefix(hits, w, k - 1);
    }
  }

  lemma MergeOneMore(hits: seq<Span>, w: Span)
    ensures MergeUpTo(hits + [w], |hits + [w]|) == Absorb(MergeUpTo(hits, |hits|), w)
  {
    MergePrefix(hits, w, |hits|);
  }

  /** Windows only move to the right. */
  lemma WindowsMoveRight(events: seq<Event>, width: int, i: nat, j: nat)
    requires InTimeOrder(events) && i <= j < |events|
    ensures WindowStart(events, width, i) <= WindowStart(events, width, j)
    ensures forall k :: 0 <= k <= j && events[k].time >= events[j].time - width ==>
      WindowStart(events, width, j) <= k
  {
    AllPairsInOrder(events);
  }

  /** An event that ties with a hit ends a hit too. */
  lemma TiesHitToo(events: seq<Event>, width: int, minHosts: int, i: nat, j: nat)
    requires InTimeOrder(events) && width >= 0 && i <= j < |events|
    requires events[i].time == events[j].time && IsHit(events, width, minHosts, i)
    ensures IsHit(events, width, minHosts, j)
  {
    WindowsMoveRight(events, width, i, j);
    var a, b := WindowStart(events, width, i), WindowStart(events, width, j);
    Fewer(HostsAt(events, a, i + 1), HostsAt(events, b, j + 1));
  }

  // One turn of the scan, seen from the bursts built so far.

  lemma NoHitKeepsBurst(events: seq<Event>, width: int, minHosts: int, n: nat, b: Span)
    requires InTimeOrder(events) && width >= 0 && n < |events|
    requires IsBurst(events, width, minHosts, n, b) && !IsHit(events, width, minHosts, n)
    ensures IsBurst(events, width, minHosts, n + 1, b)
  {
    MadeOfHitsGrows(events, width, minHosts, n, b);
    var i :| 0 <= i < n && HitInside(events, width, minHosts, i, b) && events[i].time == b.end;
    EarlierIsNoLater(events, i, n);
    if events[n].time == events[i].time {
      TiesHitToo(events, width, minHosts, i, n);
    }
    SameHosts(events, n, b.start, b.end);
  }

  lemma MadeOfHitsGrows(events: seq<Event>, width: int, minHosts: int, n: nat, b: Span)
    requires n < |events| && MadeOfHits(events, width, minHosts, n, b)
    ensures MadeOfHits(events, width, minHosts, n + 1, b)
  {
    forall t | Within(b, t) ensures CoveredBy(events, width, minHosts, n + 1, b, t) {
      assert CoveredBy(events, width, minHosts, n, b, t);
    }
  }

  /** An event outside a time range does not change the range's hosts. */
  lemma SameHosts(events: seq<Event>, n: nat, from: int, to: int)
    requires n < |events| && !(from <= events[n].time <= to)
    ensures HostsTimed(events, n + 1, from, to) == HostsTimed(events, n, from, to)
  {
  }

  /** A hit that starts after the last burst ended opens a burst of its own. */
  lemma NewBurst(events: seq<Event>, width: int, minHosts: int, n: nat)
    requires InTimeOrder(events) && width >= 0 && n < |events|
    requires IsHit(events, width, minHosts, n) && WindowStart(events, width, n) <= n
    ensures var w := HitSpan(events, width, n);
      HitInside(events, width, minHosts, n, w) && IsBurst(events, width, minHosts, n + 1, w)
  {
    var lo := WindowStart(events, width, n);
    var w := HitSpan(events, width, n);
    EarlierIsNoLater(events, lo, n);
    assert HitInside(events, width, minHosts, n, w);
    forall t | Within(w, t) ensures CoveredBy(events, width, minHosts, n + 1, w, t) {}
    WindowHosts(events, width, n);
  }

  /** The queue holds exactly the events of its time range that have come so far. */
  lemma WindowHosts(events: seq<Event>, width: int, n: nat)
    requires InTimeOrder(events) && n < |events| && WindowStart(events, width, n) <= n
    ensures var lo := WindowStart(events, width, n);
      HostsAt(events, lo, n + 1) == HostsTimed(events, n + 1, events[lo].time, events[n].time)
  {
    AllPairsInOrder(events);
  }

  /** A hit that starts no later than the last burst's end extends it: no gap, no host too many. */
  lemma GrownBurst(events: seq<Event>, width: int, minHosts: int, n: nat, last: Span)
    requires InTimeOrder(events) && width >= 0 && n < |events|
    requires IsHit(events, width, minHosts, n) && WindowStart(events, width, n) <= n
    requires IsBurst(events, width, minHosts, n, last)
    requires HitSpan(events, width, n).start <= last.end
    ensures var w := HitSpan(events, width, n);
      var b := Span(last.start, Max(last.end, w.end), last.hosts + w.hosts);
      HitInside(events, width, minHosts, n, b) && IsBurst(events, width, minHosts, n + 1, b)
  {
    var w := HitSpan(events, width, n);
    var b := Span(last.start, Max(last.end, w.end), last.hosts + w.hosts);
    GrownEnds(events, width, minHosts, n, last, b);
    forall t | Within(b, t) ensures CoveredBy(events, width, minHosts, n + 1, b, t) {
      GrownCovers(events, width, minHosts, n, last, b, t);
    }
    GrownHosts(events, width, n, last);
  }

  /** The new hit lies inside the grown burst, and hits still touch both its ends. */
  lemma GrownEnds(events: seq<Event>, width: int, minHosts: int, n: nat, last: Span, b: Span)
    requires InTimeOrder(events) && width >= 0 && n < |events|
    requires IsHit(events, width, minHosts, n) && WindowStart(events, width, n) <= n
    requires IsBurst(events, width, minHosts, n, last)
    requires var w := HitSpan(events, width, n);
      w.start <= last.end && b == Span(last.start, Max(last.end, w.end), last.hosts + w.hosts)
    ensures HitInside(events, width, minHosts, n, b) && b.end == events[n].time
    ensures exists first :: (0 <= first < n && HitInside(events, width, minHosts, first, b)
                             && events[WindowStart(events, width, first)].time == b.start)
  {
    var first :| 0 <= first < n && HitInside(events, width, minHosts, first, last)
      && events[WindowStart(events, width, first)].time == last.start;
    var latest :| 0 <= latest < n && HitInside(events, width, minHosts, latest, last)
      && events[latest].time == last.end;
    WindowsMoveRight(events, width, first, n);
    EarlierIsNoLater(events, WindowStart(events, width, first), WindowStart(events, width, n));
    EarlierIsNoLater(events, latest, n);
    assert HitInside(events, width, minHosts, first, b);
  }

  lemma GrownCovers(events: seq<Event>, width: int, minHosts: int, n: nat, last: Span, b: Span, t: int)
    requires n < |events| && IsBurst(events, width, minHosts, n, last) && Within(b, t)
    requires b.start == last.start && last.end <= b.end && b.end == events[n].time
    requires HitInside(events, width, minHosts, n, b) && HitSpan(events, width, n).start <= last.end
    ensures CoveredBy(events, width, minHosts, n + 1, b, t)
  {
    if t <= last.end {
      assert Within(last, t) && CoveredBy(events, width, minHosts, n, last, t);
      var i :| 0 <= i < n && HitInside(events, width, minHosts, i, last)
        && events[WindowStart(events, width, i)].time <= t <= events[i].time;
      assert HitInside(events, width, minHosts, i, b);
    }
  }

  lemma GrownHosts(events: seq<Event>, width: int, n: nat, last: Span)
    requires InTimeOrder(events) && width >= 0 && n < |events| && WindowStart(events, width, n) <= n
    requires last.start <= events[WindowStart(events, width, n)].time <= last.end <= events[n].time
    ensures HostsTimed(events, n, last.start, last.end) + HostsAt(events, WindowStart(events, width, n), n + 1)
         == HostsTimed(events, n + 1, last.start, events[n].time)
  {
    AllPairsInOrder(events);
    var lo := WindowStart(events, width, n);
    forall i | 0 <= i < n + 1 && events[i].time > last.end ensures lo <= i {}
  }

  /** A burst that ended before the current event stays as it is. */
  lemma OldBurst(events: seq<Event>, width: int, minHosts: int, n: nat, b: Span)
    requires n < |events| && b.end < events[n].time
    requires IsBurst(events, width, minHosts, n, b)
    ensures IsBurst(events, width, minHosts, n + 1, b)
  {
    MadeOfHitsGrows(events, width, minHosts, n, b);
    SameHosts(events, n, b.start, b.end);
  }

  lemma NoHitKeeps(events: seq<Event>, width: int, minHosts: int, n: nat, bursts: seq<Span>)
    requires InTimeOrder(events) && width >= 0 && n < |events|
    requires AllBursts(events, width, minHosts, n, bursts) && !IsHit(events, width, minHosts, n)
    ensures AllBursts(events, width, minHosts, n + 1, bursts)
  {
    forall k | 0 <= k < |bursts| ensures IsBurst(events, width, minHosts, n + 1, bursts[k]) {
      NoHitKeepsBurst(events, width, minHosts, n, bursts[k]);
    }
  }

  lemma OldBursts(events: seq<Event>, width: int, minHosts: int, n: nat, bursts: seq<Span>, keep: nat)
    requires n < |events| && keep <= |bursts|
    requires AllBursts(events, width, minHosts, n, bursts)
    requires forall k :: 0 <= k < keep ==> bursts[k].end < events[n].time
    ensures AllBursts(events, width, minHosts, n + 1, bursts[..keep])
  {
    forall k | 0 <= k < keep ensures IsBurst(events, width, minHosts, n + 1, bursts[..keep][k]) {
      OldBurst(events, width, minHosts, n, bursts[k]);
    }
  }

  /** The merge either extends the last burst with this hit or, past its end, opens a new one. */
  lemma HitMakesBurst(events: seq<Event>, width: int, minHosts: int, n: nat, bursts: seq<Span>)
      returns (keep: nat, b: Span)
    requires InTimeOrder(events) && width >= 0 && n < |events|
    requires bursts != [] ==> IsBurst(events, width, minHosts, n, bursts[|bursts| - 1])
    requires IsHit(events, width, minHosts, n) && WindowStart(events, width, n) <= n
    ensures |bursts| - 1 <= keep <= |bursts|
    ensures Absorb(bursts, HitSpan(events, width, n)) == bursts[..keep] + [b]
    ensures IsBurst(events, width, minHosts, n + 1, b) && HitInside(events, width, minHosts, n, b)
    ensures keep < |bursts| ==> b.start == bursts[keep].start
    ensures keep == |bursts| > 0 ==> bursts[|bursts| - 1].end < b.start
  {
    var w := HitSpan(events, width, n);
    if bursts != [] && w.start <= bursts[|bursts| - 1].end {
      keep := |bursts| - 1;
      var last := bursts[keep];
      GrownBurst(events, width, minHosts, n, last);
      b := Span(last.start, Max(last.end, w.end), last.hosts + w.hosts);
    } else {
      keep := |bursts|;
      NewBurst(events, width, minHosts, n);
      b := w;
    }
  }

  lemma KeptEndBefore(bursts: seq<Span>, keep: nat, start: int)
    requires |bursts| - 1 <= keep <= |bursts| && Apart(bursts)
    requires keep < |bursts| ==> start == bursts[keep].start
    requires keep == |bursts| > 0 ==> bursts[|bursts| - 1].end < start
    requires forall k :: 0 <= k < |bursts| ==> bursts[k].start <= bursts[k].end
    ensures forall k :: 0 <= k < keep ==> bursts[k].end < start
  {
  }

  lemma HitKeeps(events: seq<Event>, width: int, minHosts: int, n: nat, bursts: seq<Span>)
    requires InTimeOrder(events) && width >= 0 && n < |events|
    requires AllBursts(events, width, minHosts, n, bursts) && Apart(bursts)
    requires IsHit(events, width, minHosts, n) && WindowStart(events, width, n) <= n
    ensures AllBursts(events, width, minHosts, n + 1, Absorb(bursts, HitSpan(events, width, n)))
    ensures Apart(Absorb(bursts, HitSpan(events, width, n)))
    ensures InSome(events, width, minHosts, n, Absorb(bursts, HitSpan(events, width, n)))
  {
    if bursts != [] {
      assert IsBurst(events, width, minHosts, n, bursts[|bursts| - 1]);
    }
    var keep, b := HitMakesBurst(events, width, minHosts, n, bursts);
    BurstsRunForward(events, width, minHosts, n, bursts);
    KeptEndBefore(bursts, keep, b.start);
    HitStartsBeforeItEnds(events, width, minHosts, n, b);
    OldBursts(events, width, minHosts, n, bursts, keep);
    AllSoFar(bursts[..keep], b, x => IsBurst(events, width, minHosts, n + 1, x));
    AddApart(bursts[..keep], b);
    assert HitInside(events, width, minHosts, n, (bursts[..keep] + [b])[keep]);
  }

  lemma BurstsRunForward(events: seq<Event>, width: int, minHosts: int, n: nat, bursts: seq<Span>)
    requires n <= |events| && AllBursts(events, width, minHosts, n, bursts)
    ensures forall k :: 0 <= k < |bursts| ==> bursts[k].start <= bursts[k].end
  {
    forall k | 0 <= k < |bursts| ensures bursts[k].start <= bursts[k].end {
      assert IsBurst(events, width, minHosts, n, bursts[k]);
    }
  }

  lemma HitStartsBeforeItEnds(events: seq<Event>, width: int, minHosts: int, n: nat, b: Span)
    requires InTimeOrder(events) && n < |events| && HitInside(events, width, minHosts, n, b)
    ensures b.start <= events[n].time
  {
    EarlierIsNoLater(events, WindowStart(events, width, n), n);
  }

  lemma AddApart(kept: seq<Span>, b: Span)
    requires Apart(kept) && forall k :: 0 <= k < |kept| ==> kept[k].end < b.start
    ensures Apart(kept + [b])
  {
  }

  /** The bursts after `n` events: the source's `merged` list for that prefix. */
  ghost function BurstsUpTo(events: seq<Event>, width: int, minHosts: int, n: nat): seq<Span>
    requires n <= |events| && !Crashes(events, width, minHosts)
  {
    if n == 0 then []
    else if IsHit(events, width, minHosts, n - 1) then
      WindowIsNonEmpty(events, width, minHosts, n - 1);
      Absorb(BurstsUpTo(events, width, minHosts, n - 1), HitSpan(events, width, n - 1))
    else BurstsUpTo(events, width, minHosts, n - 1)
  }

  /** Collecting all hits first and merging afterwards, or merging as they come: the same bursts. */
  lemma {:induction false} MergeAsTheyCome(events: seq<Event>, width: int, minHosts: int, n: nat)
    requires n <= |events| && !Crashes(events, width, minHosts)
    ensures var hits := HitsUpTo(events, width, minHosts, n);
      MergeUpTo(hits, |hits|) == BurstsUpTo(events, width, minHosts, n)
  {
    if n == 0 {
    } else {
      MergeAsTheyCome(events, width, minHosts, n - 1);
      var before := HitsUpTo(events, width, minHosts, n - 1);
      if IsHit(events, width, minHosts, n - 1) {
        WindowIsNonEmpty(events, width, minHosts, n - 1);
        MergeOneMore(before, HitSpan(events, width, n - 1));
      }
    }
  }

  lemma {:induction false} BurstsAreRight(events: seq<Event>, width: int, minHosts: int, n: nat)
    requires InTimeOrder(events) && width >= 0 && n <= |events|
    ensures AllBursts(events, width, minHosts, n, BurstsUpTo(events, width, minHosts, n))
    ensures Apart(BurstsUpTo(events, width, minHosts, n))
  {
    if n == 0 {
    } else {
      BurstsAreRight(events, width, minHosts, n - 1);
      NextBurstsAreRight(events, width, minHosts, n - 1, BurstsUpTo(events, width, minHosts, n - 1));
    }
  }

  lemma NextBurstsAreRight(events: seq<Event>, width: int, minHosts: int, n: nat, bursts: seq<Span>)
    requires InTimeOrder(events) && width >= 0 && n < |events|
    requires bursts == BurstsUpTo(events, width, minHosts, n)
    requires AllBursts(events, width, minHosts, n, bursts) && Apart(bursts)
    ensures AllBursts(events, width, minHosts, n + 1, BurstsUpTo(events, width, minHosts, n + 1))
    ensures Apart(BurstsUpTo(events, width, minHosts, n + 1))
  {
    if IsHit(events, width, minHosts, n) {
      WindowIsNonEmpty(events, width, minHosts, n);
      HitKeeps(events, width, minHosts, n, bursts);
    } else {
      NoHitKeeps(events, width, minHosts, n, bursts);
    }
  }

  lemma LatestHitIsInside(events: seq<Event>, width: int, minHosts: int, n: nat)
    requires InTimeOrder(events) && width >= 0 && n < |events|
    requires IsHit(events, width, minHosts, n)
    ensures InSome(events, width, minHosts, n, BurstsUpTo(events, width, minHosts, n + 1))
  {
    BurstsAreRight(events, width, minHosts, n);
    WindowIsNonEmpty(events, width, minHosts, n);
    HitKeeps(events, width, minHosts, n, BurstsUpTo(events, width, minHosts, n));
  }

  /** Once a hit lies in a burst, it stays in one. */
  lemma AbsorbKeepsInside(events: seq<Event>, width: int, minHosts: int, i: nat, bursts: seq<Span>, w: Span)
    requires i < |events| && InSome(events, width, minHosts, i, bursts)
    ensures InSome(events, width, minHosts, i, Absorb(bursts, w))
  {
    var k :| 0 <= k < |bursts| && HitInside(events, width, minHosts, i, bursts[k]);
    assert HitInside(events, width, minHosts, i, Absorb(bursts, w)[k]);
  }

  lemma {:induction false} EveryHitIsInside(events: seq<Event>, width: int, minHosts: int, i: nat, n: nat)
    requires InTimeOrder(events) && width >= 0 && i < n <= |events|
    requires IsHit(events, width, minHosts, i)
    ensures InSome(events, width, minHosts, i, BurstsUpTo(events, width, minHosts, n))
  {
    if i == n - 1 {
      LatestHitIsInside(events, width, minHosts, i);
    } else {
      EveryHitIsInside(events, width, minHosts, i, n - 1);
      if IsHit(events, width, minHosts, n - 1) {
        WindowIsNonEmpty(events, width, minHosts, n - 1);
        AbsorbKeepsInside(events, width, minHosts, i, BurstsUpTo(events, width, minHosts, n - 1),
                          HitSpan(events, width, n - 1));
      }
    }
  }

  /** The reported bursts come in order and strictly apart; each holds exactly the hosts of the events
      timed within it, ties included, and is pieced together from hits without a gap. */
  lemma BurstsAreCorrect(events: seq<Event>, width: int, minHosts: int)
    requires InTimeOrder(events) && width >= 0
    ensures var bursts := BurstsSpec(events, width, minHosts);
      && Apart(bursts)
      && forall k :: 0 <= k < |bursts| ==>
           && bursts[k].start <= bursts[k].end
           && bursts[k].hosts == HostsTimed(events, |events|, bursts[k].start, bursts[k].end)
           && MadeOfHits(events, width, minHosts, |events|, bursts[k])
  {
    MergeAsTheyCome(events, width, minHosts, |events|);
    BurstsAreRight(events, width, minHosts, |events|);
  }

  lemma HitIsReported(events: seq<Event>, width: int, minHosts: int, i: nat) returns (b: Span)
    requires InTimeOrder(events) && width >= 0 && i < |events|
    requires IsHit(events, width, minHosts, i)
    ensures b in BurstsSpec(events, width, minHosts) && HitInside(events, width, minHosts, i, b)
    ensures b.hosts == HostsTimed(events, |events|, b.start, b.end)
  {
    MergeAsTheyCome(events, width, minHosts, |events|);
    EveryHitIsInside(events, width, minHosts, i, |events|);
    var bursts := BurstsSpec(events, width, minHosts);
    var k :| 0 <= k < |bursts| && HitInside(events, width, minHosts, i, bursts[k]);
    b := bursts[k];
    BurstsAreRight(events, width, minHosts, |events|);
    assert IsBurst(events, width, minHosts, |events|, bursts[k]);
  }

  /** A burst that covers every event within the range, and so names every host in it. */
  ghost predicate Covers(events: seq<Event>, from: int, to: int, b: Span) {
    && (forall i :: 0 <= i < |events| && from <= events[i].time <= to ==> b.start <= events[i].time <= b.end)
    && HostsTimed(events, |events|, from, to) <= b.hosts
  }

  /** Wherever a window of `width` seconds is laid, if enough distinct hosts fail in it, one reported
      burst covers it. */
  lemma {:induction false} EveryWindowIsCovered(events: seq<Event>, width: int, minHosts: int, from: int)
    requires InTimeOrder(events) && width >= 0 && minHosts >= 1
    requires |HostsTimed(events, |events|, from, from + width)| >= minHosts
    ensures exists b :: b in BurstsSpec(events, width, minHosts) && Covers(events, from, from + width, b)
  {
    var last := LastTimed(events, |events|, from, from + width);
    var lo := WindowStart(events, width, last);
    AllPairsInOrder(events);
    WindowsMoveRight(events, width, last, last);
    Fewer(HostsTimed(events, |events|, from, from + width), HostsAt(events, lo, last + 1));
    var b := HitIsReported(events, width, minHosts, last);
    forall i | 0 <= i < |events| && from <= events[i].time <= from + width
      ensures b.start <= events[i].time <= b.end
    {
      assert lo <= i <= last;
    }
    assert Covers(events, from, from + width, b);
  }

  /** The last event of a time range that holds any. */
  lemma {:induction false} LastTimed(events: seq<Event>, n: nat, from: int, to: int) returns (last: nat)
    requires n <= |events| && HostsTimed(events, n, from, to) != {}
    ensures last < n && from <= events[last].time <= to
    ensures forall i :: last < i < n ==> !(from <= events[i].time <= to)
  {
    assert n > 0;
    if from <= events[n - 1].time <= to {
      last := n - 1;
    } else {
      SameHosts(events, n - 1, from, to);
      last := LastTimed(events, n - 1, from, to);
    }
  }

  lemma BurstMomentIsHit(events: seq<Event>, width: int, minHosts: int, b: Span, t: int) returns (i: nat)
    requires InTimeOrder(events) && width >= 0
    requires b in BurstsSpec(events, width, minHosts) && Within(b, t)
    ensures i < |events| && IsHit(events, width, minHosts, i) && WindowStart(events, width, i) <= i
    ensures events[WindowStart(events, width, i)].time <= t <= events[i].time
  {
    MergeAsTheyCome(events, width, minHosts, |events|);
    BurstsAreRight(events, width, minHosts, |events|);
    var bursts := BurstsSpec(events, width, minHosts);
    var k :| 0 <= k < |bursts| && bursts[k] == b;
    assert IsBurst(events, width, minHosts, |events|, bursts[k]);
    assert CoveredBy(events, width, minHosts, |events|, b, t);
    i :| 0 <= i < |events| && HitInside(events, width, minHosts, i, b)
      && events[WindowStart(events, width, i)].time <= t <= events[i].time;
  }

  /** A window that ends with event `i` is seen by the superseded scan from its first event. */
  lemma WindowSeenFromItsStart(events: seq<Event>, width: int, minHosts: int, i: nat)
    requires InTimeOrder(events) && i < |events|
    requires IsHit(events, width, minHosts, i) && WindowStart(events, width, i) <= i
    ensures QuadraticHit(events, width, minHosts, WindowStart(events, width, i))
    ensures events[i].time <= events[WindowStart(events, width, i)].time + width
  {
    AllPairsInOrder(events);
    var anchor := WindowStart(events, width, i);
    Fewer(HostsAt(events, anchor, i + 1),
          set x | anchor <= x < |events| && events[x].time <= events[anchor].time + width :: events[x].item);
  }

  lemma InBurstThenInScan(events: seq<Event>, width: int, minHosts: int, b: Span, j: nat) returns (i: nat)
    requires InTimeOrder(events) && width >= 0 && j < |events|
    requires b in BurstsSpec(events, width, minHosts) && Within(b, events[j].time)
    ensures i <= j && QuadraticHit(events, width, minHosts, i) && events[j].time <= events[i].time + width
  {
    var hit := BurstMomentIsHit(events, width, minHosts, b, events[j].time);
    WindowSeenFromItsStart(events, width, minHosts, hit);
    WindowsMoveRight(events, width, hit, hit);
    i := WindowStart(events, width, hit);
    if j < i {
      EarlierIsNoLater(events, j, i);
      assert false;
    }
  }

  lemma InScanThenInBurst(events: seq<Event>, width: int, minHosts: int, i: nat, j: nat) returns (b: Span)
    requires InTimeOrder(events) && width >= 0 && minHosts >= 1 && i <= j < |events|
    requires QuadraticHit(events, width, minHosts, i) && events[j].time <= events[i].time + width
    ensures b in BurstsSpec(events, width, minHosts) && Within(b, events[j].time)
  {
    var from := events[i].time;
    AllPairsInOrder(events);
    Fewer(set x | i <= x < |events| && events[x].time <= from + width :: events[x].item,
          HostsTimed(events, |events|, from, from + width));
    EveryWindowIsCovered(events, width, minHosts, from);
    b :| b in BurstsSpec(events, width, minHosts) && Covers(events, from, from + width, b);
  }

  /** The one-pass scan reports exactly what the superseded quadratic scan found: an event lies in a
      burst when and only when it lies in the window of some event that sees enough hosts ahead. */
  lemma RefinesQuadraticScan(events: seq<Event>, width: int, minHosts: int, j: nat)
    requires InTimeOrder(events) && width >= 0 && minHosts >= 1 && j < |events|
    ensures (exists b :: b in BurstsSpec(events, width, minHosts) && Within(b, events[j].time)) <==>
      exists i :: 0 <= i <= j && QuadraticHit(events, width, minHosts, i)
        && events[j].time <= events[i].time + width
  {
    if b :| b in BurstsSpec(events, width, minHosts) && Within(b, events[j].time) {
      var i := InBurstThenInScan(events, width, minHosts, b, j);
    }
    if i: int :| 0 <= i <= j && QuadraticHit(events, width, minHosts, i) && events[j].time <= events[i].time + width {
      var b := InScanThenInBurst(events, width, minHosts, i, j);
    }
  }

  // ---- From the rows of the log ----------------------------------------------------------------

  /** A row with a time and a host: a failure that was logged. */
  predicate IsFailure(r: AlertRow) {
    r.time != 0 && r.host != ""
  }

  /** The events are the failures logged, each as often as it was. */
  lemma {:induction false} EventsAreFailures(rows: seq<AlertRow>, r: AlertRow)
    ensures multiset(ValidEvents(rows))[Timed(r.time, r.host)] ==
      if r.time != 0 && r.host != "" then multiset(rows)[r] else 0
  {
    if rows == [] {
    } else {
      EventsAreFailures(rows[1..], r);
      assert rows == [rows[0]] + rows[1..];
      var rest := ValidEvents(rows[1..]);
      if IsFailure(rows[0]) {
        assert ValidEvents(rows) == [Timed(rows[0].time, rows[0].host)] + rest;
      }
    }
  }

  /** The hosts with a failure logged within [from, to]. */
  ghost function HostsLogged(rows: seq<AlertRow>, from: int, to: int): set<Host> {
    set r | r in rows && r.time != 0 && r.host != "" && from <= r.time <= to :: r.host
  }

  lemma EventIsFailure(rows: seq<AlertRow>, e: Event)
    ensures e in SortByTime(ValidEvents(rows)) <==> e.time != 0 && e.item != "" && AlertRow(e.time, e.item) in rows
  {
    SortIsOrdered(ValidEvents(rows));
    EventsAreFailures(rows, AlertRow(e.time, e.item));
    assert e in SortByTime(ValidEvents(rows)) <==> e in multiset(SortByTime(ValidEvents(rows)));
    assert AlertRow(e.time, e.item) in rows <==> AlertRow(e.time, e.item) in multiset(rows);
  }

  lemma HostsAreLogged(rows: seq<AlertRow>, from: int, to: int)
    ensures var events := SortByTime(ValidEvents(rows));
      HostsTimed(events, |events|, from, to) == HostsLogged(rows, from, to)
  {
    var events := SortByTime(ValidEvents(rows));
    forall h | h in HostsTimed(events, |events|, from, to) ensures h in HostsLogged(rows, from, to) {
      var i :| 0 <= i < |events| && from <= events[i].time <= to && events[i].item == h;
      EventIsFailure(rows, events[i]);
      assert AlertRow(events[i].time, h) in rows;
    }
    forall h | h in HostsLogged(rows, from, to) ensures h in HostsTimed(events, |events|, from, to) {
      var r :| r in rows && r.time != 0 && r.host != "" && from <= r.time <= to && r.host == h;
      EventIsFailure(rows, Timed(r.time, r.host));
      var i :| 0 <= i < |events| && events[i] == Timed(r.time, r.host);
    }
  }

  /** Two failures no more than `width` seconds apart, with failures of enough hosts from one to the other. */
  ghost predicate Dense(rows: seq<AlertRow>, width: int, minHosts: int, first: AlertRow, last: AlertRow) {
    && first in rows && IsFailure(first) && last in rows && IsFailure(last)
    && first.time <= last.time <= first.time + width
    && |HostsLogged(rows, first.time, last.time)| >= minHosts
  }

  lemma HitIsDense(rows: seq<AlertRow>, width: int, minHosts: int, i: nat) returns (first: AlertRow, last: AlertRow)
    requires width >= 0 && i < |SortByTime(ValidEvents(rows))|
    requires IsHit(SortByTime(ValidEvents(rows)), width, minHosts, i)
    requires WindowStart(SortByTime(ValidEvents(rows)), width, i) <= i
    ensures Dense(rows, width, minHosts, first, last)
    ensures var events := SortByTime(ValidEvents(rows));
      first.time == events[WindowStart(events, width, i)].time && last.time == events[i].time
  {
    var events := SortByTime(ValidEvents(rows));
    var lo := WindowStart(events, width, i);
    SortIsOrdered(ValidEvents(rows));
    AllPairsInOrder(events);
    first, last := AlertRow(events[lo].time, events[lo].item), AlertRow(events[i].time, events[i].item);
    EventIsFailure(rows, events[lo]);
    EventIsFailure(rows, events[i]);
    HostsAreLogged(rows, first.time, last.time);
    Fewer(HostsAt(events, lo, i + 1), HostsTimed(events, |events|, first.time, last.time));
  }

  /** The bursts reported come in order and strictly apart; each begins and ends with a failure that was logged and
      names exactly the hosts with a failure logged within it. */
  lemma ReportedBursts(rows: seq<AlertRow>, width: int, minHosts: int, bursts: seq<Span>)
    requires Detected(rows, width, minHosts) == Found(bursts) && width >= 0
    ensures Apart(bursts)
    ensures forall b :: b in bursts ==>
      && b.start <= b.end && b.hosts == HostsLogged(rows, b.start, b.end)
      && (exists r :: r in rows && IsFailure(r) && r.time == b.start)
      && (exists r :: r in rows && IsFailure(r) && r.time == b.end)
  {
    var events := SortByTime(ValidEvents(rows));
    SortIsOrdered(ValidEvents(rows));
    BurstsAreCorrect(events, width, minHosts);
    forall b | b in bursts
      ensures b.start <= b.end && b.hosts == HostsLogged(rows, b.start, b.end)
      ensures exists r :: r in rows && IsFailure(r) && r.time == b.start
      ensures exists r :: r in rows && IsFailure(r) && r.time == b.end
    {
      var k :| 0 <= k < |bursts| && bursts[k] == b;
      HostsAreLogged(rows, b.start, b.end);
      assert MadeOfHits(events, width, minHosts, |events|, b);
      BurstEnds(rows, width, minHosts, b);
    }
  }

  lemma BurstEnds(rows: seq<AlertRow>, width: int, minHosts: int, b: Span)
    requires var events := SortByTime(ValidEvents(rows)); MadeOfHits(events, width, minHosts, |events|, b)
    requires width >= 0
    ensures exists r :: r in rows && IsFailure(r) && r.time == b.start
    ensures exists r :: r in rows && IsFailure(r) && r.time == b.end
  {
    var events := SortByTime(ValidEvents(rows));
    var i :| 0 <= i < |events| && HitInside(events, width, minHosts, i, b)
      && events[WindowStart(events, width, i)].time == b.start;
    var j :| 0 <= j < |events| && HitInside(events, width, minHosts, j, b) && events[j].time == b.end;
    var first, l := HitIsDense(rows, width, minHosts, i);
    var f, last := HitIsDense(rows, width, minHosts, j);
  }

  /** A burst that spans every failure logged within the range and names its host. */
  ghost predicate TakesIn(rows: seq<AlertRow>, from: int, to: int, b: Span) {
    && (forall r :: r in rows && IsFailure(r) && from <= r.time <= to ==> b.start <= r.time <= b.end)
    && HostsLogged(rows, from, to) <= b.hosts
  }

  lemma CoversThenTakesIn(rows: seq<AlertRow>, from: int, to: int, b: Span)
    requires Covers(SortByTime(ValidEvents(rows)), from, to, b)
    ensures TakesIn(rows, from, to, b)
  {
    var events := SortByTime(ValidEvents(rows));
    HostsAreLogged(rows, from, to);
    forall r | r in rows && IsFailure(r) && from <= r.time <= to ensures b.start <= r.time <= b.end {
      EventIsFailure(rows, Timed(r.time, r.host));
      var i :| 0 <= i < |events| && events[i] == Timed(r.time, r.host);
    }
  }

  /** Wherever a window of `width` seconds is laid over the log, if failures of enough hosts are logged in it, one
      reported burst takes in all of them. */
  lemma {:induction false} EveryDenseWindowIsReported(rows: seq<AlertRow>, width: int, minHosts: int,
                                                      bursts: seq<Span>, from: int)
    requires Detected(rows, width, minHosts) == Found(bursts) && width >= 0 && minHosts >= 1
    requires |HostsLogged(rows, from, from + width)| >= minHosts
    ensures exists b :: b in bursts && TakesIn(rows, from, from + width, b)
  {
    var b := CoveringBurst(rows, width, minHosts, from);
    CoversThenTakesIn(rows, from, from + width, b);
  }

  lemma CoveringBurst(rows: seq<AlertRow>, width: int, minHosts: int, from: int) returns (b: Span)
    requires width >= 0 && minHosts >= 1 && |HostsLogged(rows, from, from + width)| >= minHosts
    ensures b in BurstsSpec(SortByTime(ValidEvents(rows)), width, minHosts)
    ensures Covers(SortByTime(ValidEvents(rows)), from, from + width, b)
  {
    var events := SortByTime(ValidEvents(rows));
    SortIsOrdered(ValidEvents(rows));
    HostsAreLogged(rows, from, from + width);
    EveryWindowIsCovered(events, width, minHosts, from);
    b :| b in BurstsSpec(events, width, minHosts) && Covers(events, from, from + width, b);
  }

  /** An instant lies in a reported burst if and only if it lies between two failures no more than `width` seconds
      apart from one to the other of which enough hosts failed. */
  lemma InBurstExactly(rows: seq<AlertRow>, width: int, minHosts: int, bursts: seq<Span>, t: int)
    requires Detected(rows, width, minHosts) == Found(bursts) && width >= 0 && minHosts >= 1
    ensures (exists b :: b in bursts && b.start <= t <= b.end) <==>
      exists first, last :: Dense(rows, width, minHosts, first, last) && first.time <= t <= last.time
  {
    if b :| b in bursts && b.start <= t <= b.end {
      var first, last := BurstMomentIsDense(rows, width, minHosts, bursts, b, t);
    }
    if first, last :| Dense(rows, width, minHosts, first, last) && first.time <= t <= last.time {
      Fewer(HostsLogged(rows, first.time, last.time), HostsLogged(rows, first.time, first.time + width));
      EveryDenseWindowIsReported(rows, width, minHosts, bursts, first.time);
      var b :| b in bursts && TakesIn(rows, first.time, first.time + width, b);
      assert b.start <= first.time && last.time <= b.end;
    }
  }

  lemma BurstMomentIsDense(rows: seq<AlertRow>, width: int, minHosts: int, bursts: seq<Span>, b: Span, t: int)
      returns (first: AlertRow, last: AlertRow)
    requires Detected(rows, width, minHosts) == Found(bursts) && width >= 0 && b in bursts && b.start <= t <= b.end
    ensures Dense(rows, width, minHosts, first, last) && first.time <= t <= last.time
  {
    SortIsOrdered(ValidEvents(rows));
    var i := BurstMomentIsHit(SortByTime(ValidEvents(rows)), width, minHosts, b, t);
    first, last := HitIsDense(rows, width, minHosts, i);
  }

  /** The tool fails with an exception exactly when a failure is logged and both its arguments make no sense. */
  lemma FailsExactly(rows: seq<AlertRow>, width: int, minHosts: int)
    ensures Detected(rows, width, minHosts).IndexError? <==>
      width < 0 && minHosts <= 0 && exists r :: r in rows && r.time != 0 && r.host != ""
  {
    var events := SortByTime(ValidEvents(rows));
    if events != [] {
      EventIsFailure(rows, events[0]);
    }
    if r :| r in rows && r.time != 0 && r.host != "" {
      EventIsFailure(rows, Timed(r.time, r.host));
    }
  }
}
