/** The two-phase flap search (`thruk_flap_summary`, tools/history.py).

    Phase one asks the server for alert counts and keeps the objects with enough alerts; phase two
    fetches only the rows of their hosts and counts state changes. The reference scans all rows. The
    second query is the first one with its host pattern replaced. */
module FlapSummary {
  import opened Aggregation
  import F = FilterTree
  import Q = ThrukQuery
  import L = LogFilter
  import Order

  /** Selected rows, order kept. */
  function RowsOf(rows: seq<Alert>, k: Key): seq<Alert> {
    if rows == [] then []
    else if rows[0].key == k then [rows[0]] + RowsOf(rows[1..], k)
    else RowsOf(rows[1..], k)
  }

  function RowsOfHosts(rows: seq<Alert>, hosts: set<string>): seq<Alert> {
    if rows == [] then []
    else if rows[0].key.0 in hosts then [rows[0]] + RowsOfHosts(rows[1..], hosts)
    else RowsOfHosts(rows[1..], hosts)
  }

  /** How often two consecutive rows differ in state. */
  function Transitions(rows: seq<Alert>): nat {
    if |rows| < 2 then 0
    else (if rows[1].state != rows[0].state then 1 else 0) + Transitions(rows[1..])
  }

  ghost predicate Flaps(rows: seq<Alert>, minTransitions: int, k: Key) {
    |RowsOf(rows, k)| >= 2 && Transitions(RowsOf(rows, k)) >= minTransitions
  }

  /** The flapping objects of `rows` with their transition counts. */
  ghost predicate IsScanOf(results: map<Key, nat>, rows: seq<Alert>, minTransitions: int) {
    && (forall k :: k in results <==> Flaps(rows, minTransitions, k))
    && (forall k :: k in results ==> results[k] == Transitions(RowsOf(rows, k)))
  }

  // ---- The log and its queries -----------------------------------------------------------------

  /** A row of the log, as the search reads it; log times are not negative. */
  function AlertOf(row: F.Row): Alert {
    Alert((F.TextOf(row, F.Host), F.TextOf(row, F.Service)), row.state, if row.time < 0 then 0 else row.time)
  }

  /** The rows a query selects, in the log's order. */
  ghost function Fetched(t: F.Thruk, andFirst: bool, log: seq<F.Row>, query: Q.Query): seq<Alert> {
    if log == [] then []
    else if Q.Selects(t, F.Logs, andFirst, query, log[0]) then [AlertOf(log[0])] + Fetched(t, andFirst, log[1..], query)
    else Fetched(t, andFirst, log[1..], query)
  }

  ghost predicate OccursIn(t: F.Thruk, andFirst: bool, log: seq<F.Row>, query: Q.Query, host: string) {
    exists row :: row in log && Q.Selects(t, F.Logs, andFirst, query, row) && F.TextOf(row, F.Host) == host
  }

  /** A host that occurs among the rows selected has met the pattern already: it may be replaced. */
  lemma PatternWasMet(t: F.Thruk, andFirst: bool, log: seq<F.Row>, extra: Q.Query, hosts: seq<string>, row: F.Row)
    requires forall h :: h in hosts ==> OccursIn(t, andFirst, log, extra, h)
    ensures Q.Selects(t, F.Logs, andFirst, L.WithHosts(extra, hosts), row) <==>
      Q.Selects(t, F.Logs, andFirst, extra, row) && F.TextOf(row, F.Host) in hosts
  {
    L.WithHostsSelects(t, andFirst, extra, hosts, row);
    if F.TextOf(row, F.Host) in hosts && Q.Selects(t, F.Logs, andFirst, L.WithoutPattern(extra), row) {
      var other :| other in log && Q.Selects(t, F.Logs, andFirst, extra, other)
                   && F.TextOf(other, F.Host) == F.TextOf(row, F.Host);
      SamePattern(t, andFirst, extra, other, row);
    }
  }

  lemma SamePattern(t: F.Thruk, andFirst: bool, extra: Q.Query, other: F.Row, row: F.Row)
    requires Q.Selects(t, F.Logs, andFirst, extra, other) && F.TextOf(other, F.Host) == F.TextOf(row, F.Host)
    requires Q.Selects(t, F.Logs, andFirst, L.WithoutPattern(extra), row)
    ensures Q.Selects(t, F.Logs, andFirst, extra, row)
  {
    forall k | k in extra.params ensures Q.ParamHolds(t, F.Logs, k, extra.params[k], row) {
      if k == L.HOST_NAME_REGEX {
        assert Q.ParamHolds(t, F.Logs, k, extra.params[k], other);
      } else {
        assert k in L.WithoutPattern(extra).params;
      }
    }
  }

  lemma OneRow(hosts: seq<string>, a: Alert, rest: seq<Alert>)
    ensures RowsOfHosts([a] + rest, Members(hosts)) ==
      (if a.key.0 in hosts then [a] else []) + RowsOfHosts(rest, Members(hosts))
  {
    assert ([a] + rest)[1..] == rest;
  }

  function Members(hosts: seq<string>): set<string> {
    set h | h in hosts
  }

  /** The second query fetches exactly the first one's rows of those hosts. */
  lemma {:induction false} SecondFetch(t: F.Thruk, andFirst: bool, log: seq<F.Row>, extra: Q.Query,
                                       hosts: seq<string>, whole: seq<F.Row>)
    requires forall h :: h in hosts ==> OccursIn(t, andFirst, whole, extra, h)
    ensures Fetched(t, andFirst, log, L.WithHosts(extra, hosts)) ==
      RowsOfHosts(Fetched(t, andFirst, log, extra), Members(hosts))
  {
    if log == [] {
    } else {
      SecondFetch(t, andFirst, log[1..], extra, hosts, whole);
      PatternWasMet(t, andFirst, whole, extra, hosts, log[0]);
      OneRow(hosts, AlertOf(log[0]), Fetched(t, andFirst, log[1..], extra));
    }
  }

  lemma {:induction false} FetchedOccurs(t: F.Thruk, andFirst: bool, log: seq<F.Row>, extra: Q.Query, a: Alert)
    requires a in Fetched(t, andFirst, log, extra)
    ensures OccursIn(t, andFirst, log, extra, a.key.0)
  {
    if Q.Selects(t, F.Logs, andFirst, extra, log[0]) && AlertOf(log[0]) == a {
      assert log[0] in log;
    } else {
      FetchedOccurs(t, andFirst, log[1..], extra, a);
      var row :| row in log[1..] && Q.Selects(t, F.Logs, andFirst, extra, row) && F.TextOf(row, F.Host) == a.key.0;
      assert row in log;
    }
  }

  // ---- The code --------------------------------------------------------------------------------

  ghost predicate Grouped(groups: map<Key, seq<Alert>>, rows: seq<Alert>) {
    forall k :: (if k in groups then groups[k] else []) == RowsOf(rows, k) && (k in groups ==> groups[k] != [])
  }

  lemma {:induction false} RowsOfAppend(rows: seq<Alert>, x: Alert, k: Key)
    ensures RowsOf(rows + [x], k) == RowsOf(rows, k) + if x.key == k then [x] else []
  {
    if rows == [] {
      assert rows + [x] == [x];
    } else {
      RowsOfAppend(rows[1..], x, k);
      assert (rows + [x])[1..] == rows[1..] + [x];
    }
  }

  lemma GroupOneMore(groups: map<Key, seq<Alert>>, rows: seq<Alert>, x: Alert)
    requires Grouped(groups, rows)
    ensures Grouped(groups[x.key := (if x.key in groups then groups[x.key] else []) + [x]], rows + [x])
  {
    forall k ensures RowsOf(rows + [x], k) == RowsOf(rows, k) + if x.key == k then [x] else [] {
      RowsOfAppend(rows, x, k);
    }
  }

  method GroupByObject(rows: seq<Alert>) returns (groups: map<Key, seq<Alert>>)
    ensures Grouped(groups, rows)
  {
    groups := map[];
    for i := 0 to |rows|
      invariant Grouped(groups, rows[..i])
    {
      var entry := rows[i];
      GroupOneMore(groups, rows[..i], entry);
      assert rows[..i + 1] == rows[..i] + [entry];
      if entry.key !in groups {
        groups := groups[entry.key := []];
      }
      groups := groups[entry.key := groups[entry.key] + [entry]];
    }
    assert rows[..|rows|] == rows;
  }

  lemma {:induction false} TransitionsStep(rows: seq<Alert>, i: nat)
    requires 1 <= i < |rows|
    ensures Transitions(rows[..i + 1]) == Transitions(rows[..i]) + if rows[i].state != rows[i - 1].state then 1 else 0
  {
    if i > 1 {
      TransitionsStep(rows[1..], i - 1);
      assert rows[..i + 1][1..] == rows[1..][..i] && rows[..i][1..] == rows[1..][..i - 1];
    }
  }

  method CountTransitions(entries: seq<Alert>) returns (transitions: nat)
    ensures transitions == Transitions(entries)
  {
    transitions := 0;
    if |entries| < 2 {
      return;
    }
    for i := 1 to |entries|
      invariant transitions == Transitions(entries[..i])
    {
      TransitionsStep(entries, i);
      if entries[i].state != entries[i - 1].state {
        transitions := transitions + 1;
      }
    }
    assert entries[..|entries|] == entries;
  }

  method CountFlaps(rows: seq<Alert>, minTransitions: int) returns (results: map<Key, nat>)
    ensures IsScanOf(results, rows, minTransitions)
  {
    var groups := GroupByObject(rows);
    results := map[];
    var rest := groups.Keys;
    while rest != {}
      invariant rest <= groups.Keys
      invariant forall k :: k in results <==> k in groups && k !in rest && Flaps(rows, minTransitions, k)
      invariant forall k :: k in results ==> results[k] == Transitions(RowsOf(rows, k))
      decreases rest
    {
      var k :| k in rest;
      rest := rest - {k};
      var entries := groups[k];
      if |entries| >= 2 {
        var transitions := CountTransitions(entries);
        if transitions >= minTransitions {
          results := results[k := transitions];
        }
      }
    }
  }

  /** The objects with enough alerts to flap. */
  function Candidates(totals: Totals, minTransitions: int): set<Key> {
    set k | k in totals && totals[k].count >= minTransitions
  }

  ghost predicate IsServer(t: F.Thruk, andFirst: bool, log: seq<F.Row>, server: Q.Query -> seq<Alert>) {
    forall query :: server(query) == Fetched(t, andFirst, log, query)
  }

  /** Both phases, on the alert rows of the log in time order. The server answers phase one with counts of what
      the filter's query selects, and phase two with the rows the narrowed query selects. */
  method FlapSearch(ghost t: F.Thruk, ghost andFirst: bool, ghost log: seq<F.Row>, extra: Q.Query, data: seq<Group>,
                    server: Q.Query -> seq<Alert>, minTransitions: int, ghost chunks: seq<seq<Alert>>)
      returns (results: map<Key, nat>)
    requires IsServer(t, andFirst, log, server) && Answers(data, chunks)
    requires multiset(Flatten(chunks, |chunks|)) == multiset(Fetched(t, andFirst, log, extra))
    ensures IsScanOf(results, Fetched(t, andFirst, log, extra), minTransitions)
  {
    var totals := Reaggregate(data);
    var candidates := Candidates(totals, minTransitions);
    var fetched := [];
    ghost var all := Fetched(t, andFirst, log, extra);
    if candidates != {} {
      Order.NamesAreTotallyOrdered();
      var hosts := Order.SortSet(set k | k in candidates :: k.0, Order.StrLe);
      fetched := server(L.WithHosts(extra, hosts));
      forall h | h in hosts ensures OccursIn(t, andFirst, log, extra, h) {
        var k :| k in candidates && k.0 == h;
        CandidateOccurs(t, andFirst, log, extra, data, chunks, k);
      }
      SecondFetch(t, andFirst, log, extra, hosts, log);
      assert Members(hosts) == set k | k in candidates :: k.0;
    }
    results := CountFlaps(fetched, minTransitions);
    assert candidates == {} ==> fetched == [];
    forall k ensures Flaps(fetched, minTransitions, k) <==> Flaps(all, minTransitions, k)
             ensures Flaps(all, minTransitions, k) ==> RowsOf(fetched, k) == RowsOf(all, k)
    {
      PreselectionIsSound(data, chunks, all, minTransitions, k);
      FetchedRows(all, set k | k in candidates :: k.0, k);
    }
  }

  lemma CandidateOccurs(t: F.Thruk, andFirst: bool, log: seq<F.Row>, extra: Q.Query, data: seq<Group>,
                        chunks: seq<seq<Alert>>, k: Key)
    requires Answers(data, chunks) && k in TotalsOf(data, |data|)
    requires multiset(Flatten(chunks, |chunks|)) == multiset(Fetched(t, andFirst, log, extra))
    ensures OccursIn(t, andFirst, log, extra, k.0)
  {
    var all := Fetched(t, andFirst, log, extra);
    MergedIsRaw(data, chunks, |data|, k);
    CountOfPermutation(Flatten(chunks, |chunks|), all, k);
    CountedMeansThere(all, k);
    var a :| a in all && a.key == k;
    FetchedOccurs(t, andFirst, log, extra, a);
  }

  // ---- Why two phases are enough ---------------------------------------------------------------

  lemma {:induction false} FetchedRows(rows: seq<Alert>, hosts: set<string>, k: Key)
    ensures RowsOf(RowsOfHosts(rows, hosts), k) == if k.0 in hosts then RowsOf(rows, k) else []
  {
    if rows == [] {
    } else {
      FetchedRows(rows[1..], hosts, k);
      var rest := RowsOfHosts(rows[1..], hosts);
      assert ([rows[0]] + rest)[1..] == rest;
    }
  }

  lemma {:induction false} TransitionsFewerThanRows(rows: seq<Alert>)
    requires rows != []
    ensures Transitions(rows) <= |rows| - 1
  {
    if |rows| >= 2 {
      TransitionsFewerThanRows(rows[1..]);
    }
  }

  lemma {:induction false} RowsAreCounted(rows: seq<Alert>, k: Key)
    ensures |RowsOf(rows, k)| == CountKey(rows, k)
  {
    if rows == [] {
    } else {
      RowsAreCounted(rows[1..], k);
    }
  }

  lemma TakeOut(b: seq<Alert>, i: nat, k: Key)
    requires i < |b|
    ensures multiset(b[..i] + b[i + 1..]) == multiset(b) - multiset{b[i]}
    ensures CountKey(b, k) == CountKey(b[..i] + b[i + 1..], k) + if b[i].key == k then 1 else 0
  {
    assert b == b[..i] + ([b[i]] + b[i + 1..]);
    CountAppend(b[..i], [b[i]] + b[i + 1..], k);
    CountAppend([b[i]], b[i + 1..], k);
    CountAppend(b[..i], b[i + 1..], k);
  }

  lemma {:induction false} CountOfPermutation(a: seq<Alert>, b: seq<Alert>, k: Key)
    requires multiset(a) == multiset(b)
    ensures CountKey(a, k) == CountKey(b, k)
  {
    if a == [] {
      assert |multiset(b)| == |b|;
    } else {
      assert a[0] in multiset(b);
      var i :| 0 <= i < |b| && b[i] == a[0];
      TakeOut(b, i, k);
      assert a == [a[0]] + a[1..];
      CountOfPermutation(a[1..], b[..i] + b[i + 1..], k);
    }
  }

  /** An object that flaps has more alerts than transitions, so phase one keeps it. */
  lemma PreselectionIsSound(data: seq<Group>, chunks: seq<seq<Alert>>, all: seq<Alert>, minTransitions: int, k: Key)
    requires Answers(data, chunks) && multiset(Flatten(chunks, |chunks|)) == multiset(all)
    ensures Flaps(all, minTransitions, k) ==> k in Candidates(TotalsOf(data, |data|), minTransitions)
  {
    if Flaps(all, minTransitions, k) {
      TransitionsFewerThanRows(RowsOf(all, k));
      RowsAreCounted(all, k);
      CountOfPermutation(Flatten(chunks, |chunks|), all, k);
      MergedIsRaw(data, chunks, |data|, k);
    }
  }
}
