/** The state of the estate at a past instant, replayed from `/logs` (tools/history.py). */
module StateReplay {
  import opened Basics
  import opened TimeOrder

  /** Host and service; the service is empty for the host itself. */
  type Key = (string, string)

  /** The STARTED / STOPPED / CANCELLED / EXPIRED marker found in a row, if any. */
  datatype Detail = Started | Stopped | Cancelled | Expired | NoMarker

  /** A row after classification of its `type` column. A `state` of None does not convert to an integer. */
  datatype Event =
    | StateChange(state: Option<int>, stateType: Option<string>, output: Option<string>)
    | Downtime(detail: Detail)
    | Ack(detail: Detail)
    | OtherEvent

  datatype Entry = Entry(key: Key, event: Event)

  type Row = Timed<Entry>

  /** What is known of one object. */
  datatype Rec = Rec(state: Option<int>, stateType: Option<string>, since: Option<int>,
                     inDowntime: bool, acknowledged: bool, output: Option<string>)

  const EmptyRec := Rec(None, None, None, false, false, None)

  function Code(e: Event): int
    requires e.StateChange?
  {
    if e.state.Some? then e.state.value else -1
  }

  predicate IsStop(d: Detail) {
    d in {Stopped, Cancelled, Expired}
  }

  /** One row's effect on its object. */
  function Update(rec: Rec, time: int, e: Event): Rec {
    match e
    case StateChange(_, stateType, output) =>
      var s := Code(e);
      rec.(since := if Some(s) != rec.state then Some(time) else rec.since,
           state := Some(s), stateType := stateType, output := output,
           acknowledged := s != 0 && rec.acknowledged)
    case Downtime(detail) =>
      rec.(inDowntime := if detail == Started then true else if IsStop(detail) then false else rec.inDowntime)
    case Ack(detail) => rec.(acknowledged := !IsStop(detail))
    case OtherEvent => rec
  }

  type States = map<Key, Rec>

  function RecOf(states: States, k: Key): Rec {
    if k in states then states[k] else EmptyRec
  }

  /** The rows applied in the order given. */
  function Replay(states: States, rows: seq<Row>): States
    decreases |rows|
  {
    if rows == [] then states
    else
      var k := rows[0].item.key;
      Replay(states[k := Update(RecOf(states, k), rows[0].time, rows[0].item.event)], rows[1..])
  }

  function UpTo(at: int): Row -> bool {
    (r: Row) => r.time <= at
  }

  function StatesAt(rows: seq<Row>, at: int): States {
    Replay(map[], SortByTime(Keep(rows, UpTo(at))))
  }

  method ReconstructStateAt(rows: seq<Row>, at: int) returns (states: States)
    ensures states == StatesAt(rows, at)
  {
    var ordered := SortByTime(Keep(rows, UpTo(at)));
    states := map[];
    for i := 0 to |ordered|
      invariant Replay(states, ordered[i..]) == Replay(map[], ordered)
    {
      var epoch, k, e := ordered[i].time, ordered[i].item.key, ordered[i].item.event;
      assert ordered[i..][1..] == ordered[i + 1..];
      var rec := if k in states then states[k] else EmptyRec;
      match e {
        case StateChange(_, stateType, output) =>
          var s := if e.state.Some? then e.state.value else -1;
          if Some(s) != rec.state {
            rec := rec.(since := Some(epoch));
          }
          rec := rec.(state := Some(s), stateType := stateType, output := output);
          if s == 0 {
            rec := rec.(acknowledged := false);
          }
        case Downtime(detail) =>
          if detail == Started {
            rec := rec.(inDowntime := true);
          } else if detail in {Stopped, Cancelled, Expired} {
            rec := rec.(inDowntime := false);
          }
        case Ack(detail) =>
          if detail in {Stopped, Cancelled, Expired} {
            rec := rec.(acknowledged := false);
          } else {
            rec := rec.(acknowledged := true);
          }
        case OtherEvent =>
      }
      states := states[k := rec];
    }
    assert ordered[|ordered|..] == [];
  }

  // ---- Replaying in two steps -----------------------------------------------------------------

  lemma {:induction false} ReplayAppend(states: States, a: seq<Row>, b: seq<Row>)
    ensures Replay(states, a + b) == Replay(Replay(states, a), b)
    decreases |a|
  {
    if a == [] {
      assert a + b == b;
    } else {
      var k := a[0].item.key;
      ReplayAppend(states[k := Update(RecOf(states, k), a[0].time, a[0].item.event)], a[1..], b);
      assert (a + b)[1..] == a[1..] + b;
    }
  }

  function Between(t1: int, t2: int): Row -> bool {
    (r: Row) => t1 < r.time <= t2
  }

  /** The state at `t2` is the state at `t1` with only the rows of (t1, t2] applied to it. */
  lemma ReplayIsCompositional(rows: seq<Row>, t1: int, t2: int)
    requires t1 <= t2
    ensures StatesAt(rows, t2) == Replay(StatesAt(rows, t1), SortByTime(Keep(rows, Between(t1, t2))))
  {
    var upTo := Keep(rows, UpTo(t2));
    SortSplitsAt(upTo, t1);
    KeepTwice(rows, UpTo(t2), (r: Row) => r.time <= t1, UpTo(t1));
    KeepTwice(rows, UpTo(t2), (r: Row) => r.time > t1, Between(t1, t2));
    ReplayAppend(map[], SortByTime(Keep(rows, UpTo(t1))), SortByTime(Keep(rows, Between(t1, t2))));
  }

  // ---- Each object on its own -----------------------------------------------------------------

  function Own(k: Key): Row -> bool {
    (r: Row) => r.item.key == k
  }

  /** One object's history applied to its record. */
  ghost function Fold(rec: Rec, history: seq<Row>): Rec
    decreases |history|
  {
    if history == [] then rec
    else Fold(Update(rec, history[0].time, history[0].item.event), history[1..])
  }

  lemma {:induction false} ReplayPerObject(states: States, rows: seq<Row>, k: Key)
    ensures RecOf(Replay(states, rows), k) == Fold(RecOf(states, k), Keep(rows, Own(k)))
    ensures k in Replay(states, rows) <==> k in states || Keep(rows, Own(k)) != []
    decreases |rows|
  {
    if rows == [] {
    } else {
      var k0 := rows[0].item.key;
      var next := states[k0 := Update(RecOf(states, k0), rows[0].time, rows[0].item.event)];
      ReplayPerObject(next, rows[1..], k);
    }
  }

  /** An object's own rows up to `at`, in replay order. */
  ghost function History(rows: seq<Row>, k: Key, at: int): seq<Row> {
    SortByTime(Keep(Keep(rows, Own(k)), UpTo(at)))
  }

  lemma HistoryIsReplayed(rows: seq<Row>, k: Key, at: int)
    ensures Keep(SortByTime(Keep(rows, UpTo(at))), Own(k)) == History(rows, k, at)
  {
    SortKeeps(Keep(rows, UpTo(at)), Own(k));
    var both := (r: Row) => r.time <= at && r.item.key == k;
    KeepTwice(rows, UpTo(at), Own(k), both);
    KeepTwice(rows, Own(k), UpTo(at), both);
  }

  /** An object appears exactly when it has a row by then, and its record is made of its own rows. */
  lemma ObjectDependsOnOwnRows(rows: seq<Row>, k: Key, at: int)
    ensures k in StatesAt(rows, at) <==> exists r :: r in rows && r.item.key == k && r.time <= at
    ensures RecOf(StatesAt(rows, at), k) == Fold(EmptyRec, History(rows, k, at))
    ensures RecOf(StatesAt(rows, at), k) == RecOf(StatesAt(Keep(rows, Own(k)), at), k)
  {
    ReplayPerObject(map[], SortByTime(Keep(rows, UpTo(at))), k);
    HistoryIsReplayed(rows, k, at);
    var own := Keep(rows, Own(k));
    ReplayPerObject(map[], SortByTime(Keep(own, UpTo(at))), k);
    HistoryIsReplayed(own, k, at);
    KeepTwice(rows, Own(k), Own(k), Own(k));
    HistoryMembers(rows, k, at);
    var h := History(rows, k, at);
    assert h != [] ==> h[0] in h;
  }

  lemma HistoryMembers(rows: seq<Row>, k: Key, at: int)
    ensures forall r :: r in History(rows, k, at) <==> r in rows && r.item.key == k && r.time <= at
    ensures InTimeOrder(History(rows, k, at))
  {
    KeepMembers(rows, Own(k));
    KeepMembers(Keep(rows, Own(k)), UpTo(at));
    SortIsOrdered(Keep(Keep(rows, Own(k)), UpTo(at)));
    SameRows(History(rows, k, at), Keep(Keep(rows, Own(k)), UpTo(at)));
  }

  lemma SameRows(a: seq<Row>, b: seq<Row>)
    requires multiset(a) == multiset(b)
    ensures forall r :: r in a <==> r in b
  {
    assert forall r :: r in a <==> r in multiset(a);
    assert forall r :: r in b <==> r in multiset(b);
  }

  // ---- What the fields of a record mean --------------------------------------------------------

  /** The record after the first `n` rows of a history. */
  ghost function After(history: seq<Row>, n: nat): Rec
    requires n <= |history|
  {
    if n == 0 then EmptyRec else Update(After(history, n - 1), history[n - 1].time, history[n - 1].item.event)
  }

  lemma {:induction false} FoldIsAfter(history: seq<Row>, n: nat)
    requires n <= |history|
    ensures Fold(After(history, n), history[n..]) == Fold(EmptyRec, history)
  {
    if n == 0 {
      assert history[0..] == history;
    } else {
      FoldIsAfter(history, n - 1);
      assert history[n - 1..][1..] == history[n..];
    }
  }

  lemma FoldIsLast(history: seq<Row>)
    ensures Fold(EmptyRec, history) == After(history, |history|)
  {
    FoldIsAfter(history, |history|);
    assert history[|history|..] == [];
  }

  ghost predicate IsChange(history: seq<Row>, i: int) {
    0 <= i < |history| && history[i].item.event.StateChange?
  }

  ghost function CodeAt(history: seq<Row>, i: int): int
    requires IsChange(history, i)
  {
    Code(history[i].item.event)
  }

  /** `i` is the last state change before `n`. */
  ghost predicate LastChange(history: seq<Row>, i: int, n: int) {
    IsChange(history, i) && i < n && forall l :: i < l < n ==> !IsChange(history, l)
  }

  /** `j` starts the longest run of equal states that ends with the last change before `n`. */
  ghost predicate StartsRun(history: seq<Row>, j: int, n: int) {
    && IsChange(history, j) && j < n
    && (forall i :: j <= i < n && IsChange(history, i) ==> CodeAt(history, i) == CodeAt(history, j))
    && (forall i :: LastChange(history, i, j) ==> CodeAt(history, i) != CodeAt(history, j))
  }

  /** `state` is the last reported one, `since` the time its unbroken run began. */
  lemma {:induction false} SinceIsStartOfRun(history: seq<Row>, n: nat, j: int)
    requires n <= |history| && StartsRun(history, j, n)
    ensures After(history, n).state == Some(CodeAt(history, j))
    ensures After(history, n).since == Some(history[j].time)
  {
    if !IsChange(history, n - 1) {
      assert StartsRun(history, j, n - 1);
      SinceIsStartOfRun(history, n - 1, j);
    } else if j < n - 1 {
      assert StartsRun(history, j, n - 1);
      SinceIsStartOfRun(history, n - 1, j);
    } else {
      StateIsLastReported(history, n - 1);
      if exists i :: 0 <= i < n - 1 && IsChange(history, i) {
        var i := LastChangeExists(history, n - 1);
        assert LastChange(history, i, j);
      }
    }
  }

  lemma {:induction false} LastChangeExists(history: seq<Row>, n: nat) returns (i: int)
    requires n <= |history| && exists i :: 0 <= i < n && IsChange(history, i)
    ensures LastChange(history, i, n)
  {
    if IsChange(history, n - 1) {
      i := n - 1;
    } else {
      i := LastChangeExists(history, n - 1);
    }
  }

  /** An object has a state exactly when a change was reported, and then the last one. */
  lemma {:induction false} StateIsLastReported(history: seq<Row>, n: nat)
    requires n <= |history|
    ensures After(history, n).state.None? <==> forall i :: 0 <= i < n ==> !IsChange(history, i)
    ensures forall i :: LastChange(history, i, n) ==> After(history, n).state == Some(CodeAt(history, i))
  {
    if n == 0 {
    } else {
      StateIsLastReported(history, n - 1);
      if !IsChange(history, n - 1) {
        forall i | LastChange(history, i, n) ensures LastChange(history, i, n - 1) {}
      }
    }
  }

  /** The longest trailing run exists as soon as there is a change, so `since` is always explained. */
  lemma {:induction false} RunExists(history: seq<Row>, n: nat) returns (j: int)
    requires n <= |history| && exists i :: 0 <= i < n && IsChange(history, i)
    ensures StartsRun(history, j, n)
  {
    if !IsChange(history, n - 1) {
      j := RunExists(history, n - 1);
    } else if exists i :: 0 <= i < n - 1 && IsChange(history, i) {
      j := RunExists(history, n - 1);
      if CodeAt(history, j) != CodeAt(history, n - 1) {
        j := n - 1;
      }
    } else {
      j := n - 1;
    }
  }

  predicate SetsAck(e: Event) {
    e.Ack? && e.detail !in {Stopped, Cancelled, Expired}
  }

  predicate ClearsAck(e: Event) {
    (e.Ack? && e.detail in {Stopped, Cancelled, Expired}) || (e.StateChange? && e.state == Some(0))
  }

  /** Acknowledged: some acknowledgement has no later recovery and no later stop. */
  ghost predicate StandingAck(history: seq<Row>, n: int) {
    exists i :: 0 <= i < n <= |history| && SetsAck(history[i].item.event)
      && forall l :: i < l < n ==> !ClearsAck(history[l].item.event)
  }

  lemma {:induction false} AcknowledgedExactly(history: seq<Row>, n: nat)
    requires n <= |history|
    ensures After(history, n).acknowledged <==> StandingAck(history, n)
  {
    if n == 0 {
    } else {
      AcknowledgedExactly(history, n - 1);
      var e := history[n - 1].item.event;
      if SetsAck(e) {
        assert StandingAck(history, n);
      } else if !ClearsAck(e) {
        if StandingAck(history, n - 1) {
          var i :| 0 <= i < n - 1 && SetsAck(history[i].item.event)
            && forall l :: i < l < n - 1 ==> !ClearsAck(history[l].item.event);
          assert forall l :: i < l < n ==> !ClearsAck(history[l].item.event);
        }
      }
    }
  }

  predicate EndsDowntime(e: Event) {
    e in {Downtime(Stopped), Downtime(Cancelled), Downtime(Expired)}
  }

  /** In downtime: some start has no later stop. */
  ghost predicate RunningDowntime(history: seq<Row>, n: int) {
    exists i :: 0 <= i < n <= |history| && history[i].item.event == Downtime(Started)
      && forall l :: i < l < n ==> !EndsDowntime(history[l].item.event)
  }

  lemma {:induction false} InDowntimeExactly(history: seq<Row>, n: nat)
    requires n <= |history|
    ensures After(history, n).inDowntime <==> RunningDowntime(history, n)
  {
    if n == 0 {
    } else {
      InDowntimeExactly(history, n - 1);
      var e := history[n - 1].item.event;
      if RunningDowntime(history, n - 1) && !EndsDowntime(e) {
        var i :| 0 <= i < n - 1 && history[i].item.event == Downtime(Started)
          && forall l :: i < l < n - 1 ==>
               !EndsDowntime(history[l].item.event);
        assert forall l :: i < l < n ==>
          !EndsDowntime(history[l].item.event);
      }
    }
  }

  /** All of it together, for any log and any instant. */
  lemma RecordMeans(rows: seq<Row>, k: Key, at: int)
    ensures var h := History(rows, k, at);
      var rec := RecOf(StatesAt(rows, at), k);
      && (rec.acknowledged <==> StandingAck(h, |h|))
      && (rec.inDowntime <==> RunningDowntime(h, |h|))
      && (rec.state.None? <==> forall i :: 0 <= i < |h| ==> !IsChange(h, i))
      && (rec.since.None? <==> rec.state.None?)
      && (forall j :: StartsRun(h, j, |h|) ==>
            && rec.state == Some(CodeAt(h, j)) && rec.since == Some(h[j].time)
            && rec.state == Some(if h[j].item.event.state.Some? then h[j].item.event.state.value else -1))
  {
    var h := History(rows, k, at);
    ObjectDependsOnOwnRows(rows, k, at);
    FoldIsLast(h);
    AcknowledgedExactly(h, |h|);
    InDowntimeExactly(h, |h|);
    StateIsLastReported(h, |h|);
    forall j | StartsRun(h, j, |h|)
      ensures After(h, |h|).state == Some(CodeAt(h, j)) && After(h, |h|).since == Some(h[j].time)
    {
      SinceIsStartOfRun(h, |h|, j);
    }
    if exists i :: 0 <= i < |h| && IsChange(h, i) {
      var j := RunExists(h, |h|);
    } else {
      NoChangeNoSince(h, |h|);
    }
  }

  lemma {:induction false} NoChangeNoSince(history: seq<Row>, n: nat)
    requires n <= |history| && forall i :: 0 <= i < n ==> !IsChange(history, i)
    ensures After(history, n).since == None
  {
    if n == 0 {
    } else {
      NoChangeNoSince(history, n - 1);
      assert !IsChange(history, n - 1);
    }
  }
}
