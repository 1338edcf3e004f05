/** Alert counts that the server groups by (object, state), merged again per object
    (`_aggregate_alerts`, tools/history.py), and then fanned out over groups
    (`_regroup_records_by_group`, helpers.py). */
module Aggregation {
  import opened Basics

  /** Host and service; the service is empty for the host itself or when only hosts are counted. */
  type Key = (string, string)

  /** One raw log row. Times are epoch seconds. */
  datatype Alert = Alert(key: Key, state: int, time: nat)

  /** One row of the server's answer. */
  datatype Group = Group(key: Key, state: int, count: int, firstTime: Option<int>, lastTime: int)

  /** One object's merged record. */
  datatype Total = Total(count: int, firstTime: Option<int>, lastTime: int, lastState: int)

  // ---- The server ------------------------------------------------------------------------------

  /** A server row counts a non-empty chunk of raw rows of one object and one state, or nothing at all. Which rows
      share a chunk is up to the backends: the same object and state may come back several times. */
  ghost predicate Summarises(g: Group, chunk: seq<Alert>) {
    if chunk == [] then g.count <= 0 else CountsChunk(g, chunk)
  }

  ghost predicate CountsChunk(g: Group, chunk: seq<Alert>) {
    && chunk != [] && g.count == |chunk|
    && (forall a :: a in chunk ==> a.key == g.key && a.state == g.state)
    && (g.firstTime.Some? && exists a :: a in chunk && a.time == g.firstTime.value)
    && (forall a :: a in chunk ==> g.firstTime.value <= a.time <= g.lastTime)
    && (exists a :: a in chunk && a.time == g.lastTime)
  }

  ghost predicate Answers(data: seq<Group>, chunks: seq<seq<Alert>>) {
    |data| == |chunks| && forall i :: 0 <= i < |data| ==> Summarises(data[i], chunks[i])
  }

  ghost function Flatten(chunks: seq<seq<Alert>>, n: nat): seq<Alert>
    requires n <= |chunks|
  {
    if n == 0 then [] else Flatten(chunks, n - 1) + chunks[n - 1]
  }

  // ---- The merge -------------------------------------------------------------------------------

  function Merge(rec: Total, g: Group): Total {
    Total(rec.count + g.count,
          if g.firstTime.Some? && (rec.firstTime.None? || g.firstTime.value < rec.firstTime.value)
          then g.firstTime else rec.firstTime,
          if g.lastTime >= rec.lastTime then g.lastTime else rec.lastTime,
          if g.lastTime >= rec.lastTime then g.state else rec.lastState)
  }

  type Totals = map<Key, Total>

  function Add(totals: Totals, g: Group): Totals {
    if g.count <= 0 then totals
    else totals[g.key := Merge(if g.key in totals then totals[g.key] else Total(0, None, 0, g.state), g)]
  }

  function TotalsOf(data: seq<Group>, n: nat): Totals
    requires n <= |data|
  {
    if n == 0 then map[] else Add(TotalsOf(data, n - 1), data[n - 1])
  }

  method Reaggregate(data: seq<Group>) returns (totals: Totals)
    ensures totals == TotalsOf(data, |data|)
  {
    totals := map[];
    for n := 0 to |data|
      invariant totals == TotalsOf(data, n)
    {
      var g := data[n];
      if g.count > 0 {
        var rec := if g.key in totals then totals[g.key] else Total(0, None, 0, g.state);
        rec := rec.(count := rec.count + g.count);
        if g.firstTime.Some? && (rec.firstTime.None? || g.firstTime.value < rec.firstTime.value) {
          rec := rec.(firstTime := g.firstTime);
        }
        if g.lastTime >= rec.lastTime {
          rec := rec.(lastTime := g.lastTime, lastState := g.state);
        }
        totals := totals[g.key := rec];
      }
    }
  }

  // ---- Counting the raw rows -------------------------------------------------------------------

  function CountKey(raw: seq<Alert>, k: Key): nat {
    if raw == [] then 0 else (if raw[0].key == k then 1 else 0) + CountKey(raw[1..], k)
  }

  lemma {:induction false} CountAppend(a: seq<Alert>, b: seq<Alert>, k: Key)
    ensures CountKey(a + b, k) == CountKey(a, k) + CountKey(b, k)
  {
    if a == [] {
      assert a + b == b;
    } else {
      CountAppend(a[1..], b, k);
      assert (a + b)[1..] == a[1..] + b;
    }
  }

  lemma {:induction false} CountUniform(chunk: seq<Alert>, key: Key, k: Key)
    requires forall a :: a in chunk ==> a.key == key
    ensures CountKey(chunk, k) == if k == key then |chunk| else 0
  {
    if chunk == [] {
    } else {
      assert chunk[0] in chunk;
      CountUniform(chunk[1..], key, k);
    }
  }

  lemma {:induction false} CountedMeansThere(raw: seq<Alert>, k: Key)
    ensures CountKey(raw, k) > 0 <==> exists a :: a in raw && a.key == k
  {
    if raw == [] {
    } else {
      CountedMeansThere(raw[1..], k);
      assert raw == [raw[0]] + raw[1..];
    }
  }

  /** What a direct scan of the raw rows would say of object `k`. */
  ghost predicate IsTotalOf(rec: Total, raw: seq<Alert>, k: Key) {
    && rec.count == CountKey(raw, k)
    && rec.firstTime.Some?
    && (exists a :: a in raw && a.key == k && a.time == rec.firstTime.value)
    && (forall a :: a in raw && a.key == k ==> rec.firstTime.value <= a.time <= rec.lastTime)
    && (exists a :: a in raw && a.key == k && a.time == rec.lastTime && a.state == rec.lastState)
  }

  ghost predicate TotalsFor(totals: Totals, raw: seq<Alert>, k: Key) {
    && (k in totals <==> CountKey(raw, k) > 0)
    && (k in totals ==> IsTotalOf(totals[k], raw, k))
  }

  lemma NewChunk(g: Group, chunk: seq<Alert>, raw: seq<Alert>)
    requires CountsChunk(g, chunk) && CountKey(raw, g.key) == 0
    ensures IsTotalOf(Merge(Total(0, None, 0, g.state), g), raw + chunk, g.key)
  {
    CountAppend(raw, chunk, g.key);
    CountUniform(chunk, g.key, g.key);
    CountedMeansThere(raw, g.key);
    assert forall a :: a in raw + chunk <==> a in raw || a in chunk;
  }

  lemma MoreChunk(rec: Total, g: Group, chunk: seq<Alert>, raw: seq<Alert>)
    requires CountsChunk(g, chunk) && IsTotalOf(rec, raw, g.key)
    ensures IsTotalOf(Merge(rec, g), raw + chunk, g.key)
  {
    CountAppend(raw, chunk, g.key);
    CountUniform(chunk, g.key, g.key);
    assert forall a :: a in raw + chunk <==> a in raw || a in chunk;
  }

  lemma OtherChunk(rec: Total, g: Group, chunk: seq<Alert>, raw: seq<Alert>, k: Key)
    requires CountsChunk(g, chunk) && k != g.key
    ensures CountKey(raw + chunk, k) == CountKey(raw, k)
    ensures IsTotalOf(rec, raw, k) ==> IsTotalOf(rec, raw + chunk, k)
  {
    CountAppend(raw, chunk, k);
    CountUniform(chunk, g.key, k);
    assert forall a :: a in raw + chunk <==> a in raw || a in chunk;
  }

  /** However the raw rows were split over backends and server groups, the merged record of each object
      is its raw count, its first and last time, and a state seen at that last time. */
  lemma {:induction false} MergedIsRaw(data: seq<Group>, chunks: seq<seq<Alert>>, n: nat, k: Key)
    requires Answers(data, chunks) && n <= |data|
    ensures TotalsFor(TotalsOf(data, n), Flatten(chunks, n), k)
  {
    if n == 0 {
    } else {
      MergedIsRaw(data, chunks, n - 1, k);
      var g, chunk, raw, before := data[n - 1], chunks[n - 1], Flatten(chunks, n - 1), TotalsOf(data, n - 1);
      assert Summarises(data[n - 1], chunks[n - 1]);
      if chunk == [] {
        assert raw + chunk == raw;
      } else if k != g.key {
        OtherChunk(if k in before then before[k] else Total(0, None, 0, 0), g, chunk, raw, k);
      } else if k in before {
        MoreChunk(before[k], g, chunk, raw);
      } else {
        NewChunk(g, chunk, raw);
      }
    }
  }

  /** Group `i` is the last among those of object `k` with the latest time. */
  ghost predicate IsLatestGroup(data: seq<Group>, n: nat, k: Key, i: int)
    requires n <= |data|
  {
    && 0 <= i < n && data[i].key == k && data[i].count > 0
    && forall j :: 0 <= j < n && data[j].key == k && data[j].count > 0 ==>
         data[j].lastTime <= data[i].lastTime && (i < j ==> data[j].lastTime < data[i].lastTime)
  }

  lemma {:induction false} NoLaterThan(data: seq<Group>, n: nat, k: Key, t: int)
    requires n <= |data| && t >= 0
    requires forall j :: 0 <= j < n && data[j].key == k && data[j].count > 0 ==> data[j].lastTime <= t
    ensures k in TotalsOf(data, n) ==> TotalsOf(data, n)[k].lastTime <= t
  {
    if n == 0 {
    } else {
      NoLaterThan(data, n - 1, k, t);
    }
  }

  /** The state recorded is that of the latest group; of several equally late, of the one that came last. */
  lemma {:induction false} LastStateIsOfLatestGroup(data: seq<Group>, n: nat, k: Key, i: int)
    requires n <= |data| && IsLatestGroup(data, n, k, i) && data[i].lastTime >= 0
    ensures k in TotalsOf(data, n)
    ensures TotalsOf(data, n)[k].lastState == data[i].state && TotalsOf(data, n)[k].lastTime == data[i].lastTime
  {
    if i == n - 1 {
      NoLaterThan(data, n - 1, k, data[i].lastTime);
    } else {
      LastStateIsOfLatestGroup(data, n - 1, k, i);
    }
  }

  // ---- Regrouping ------------------------------------------------------------------------------

  const UNGROUPED := "(none)"

  datatype Record = Record(key: Key, count: int, lastTime: int)

  datatype Bucket = Bucket(count: int, hosts: set<string>, services: set<Key>, lastTime: int)

  type Buckets = map<string, Bucket>

  /** The buckets a record falls into: its groups, or the bucket of the ungrouped. */
  function Targets(groups: map<Key, seq<string>>, k: Key): (t: seq<string>)
    ensures |t| >= 1
  {
    if k in groups && groups[k] != [] then groups[k] else [UNGROUPED]
  }

  function Drop(buckets: Buckets, rec: Record, g: string): Buckets {
    var b := if g in buckets then buckets[g] else Bucket(0, {}, {}, 0);
    buckets[g := Bucket(b.count + rec.count,
                        if rec.key.0 != "" then b.hosts + {rec.key.0} else b.hosts,
                        if rec.key.1 != "" then b.services + {rec.key} else b.services,
                        if rec.lastTime > b.lastTime then rec.lastTime else b.lastTime)]
  }

  function DropAll(buckets: Buckets, rec: Record, targets: seq<string>, n: nat): Buckets
    requires n <= |targets|
  {
    if n == 0 then buckets else Drop(DropAll(buckets, rec, targets, n - 1), rec, targets[n - 1])
  }

  function Regrouped(records: seq<Record>, groups: map<Key, seq<string>>, n: nat): Buckets
    requires n <= |records|
  {
    if n == 0 then map[]
    else
      var targets := Targets(groups, records[n - 1].key);
      DropAll(Regrouped(records, groups, n - 1), records[n - 1], targets, |targets|)
  }

  /** The inner loop: one record into each of its buckets. */
  method DropIntoEach(buckets0: Buckets, rec: Record, targets: seq<string>) returns (buckets: Buckets)
    ensures buckets == DropAll(buckets0, rec, targets, |targets|)
  {
    buckets := buckets0;
    for i := 0 to |targets|
      invariant buckets == DropAll(buckets0, rec, targets, i)
    {
      var g := targets[i];
      var b := if g in buckets then buckets[g] else Bucket(0, {}, {}, 0);
      b := Bucket(b.count + rec.count,
                  if rec.key.0 != "" then b.hosts + {rec.key.0} else b.hosts,
                  if rec.key.1 != "" then b.services + {rec.key} else b.services,
                  if rec.lastTime > b.lastTime then rec.lastTime else b.lastTime);
      buckets := buckets[g := b];
    }
  }

  method Regroup(records: seq<Record>, groups: map<Key, seq<string>>) returns (buckets: Buckets)
    ensures buckets == Regrouped(records, groups, |records|)
  {
    buckets := map[];
    for n := 0 to |records|
      invariant buckets == Regrouped(records, groups, n)
    {
      buckets := DropIntoEach(buckets, records[n], Targets(groups, records[n].key));
    }
  }

  function Times(targets: seq<string>, n: nat, g: string): nat
    requires n <= |targets|
  {
    if n == 0 then 0 else Times(targets, n - 1, g) + if targets[n - 1] == g then 1 else 0
  }

  function CountIn(buckets: Buckets, g: string): int {
    if g in buckets then buckets[g].count else 0
  }

  /** How often an object counts for `g`: once each time `g` is named among its groups; if it has none, once for
      "(none)". */
  function Memberships(groups: map<Key, seq<string>>, k: Key, g: string): nat {
    if k in groups && |groups[k]| > 0 then multiset(groups[k])[g] else if g == "(none)" then 1 else 0
  }

  lemma {:induction false} TimesIsMultiplicity(targets: seq<string>, n: nat, g: string)
    requires n <= |targets|
    ensures Times(targets, n, g) == multiset(targets[..n])[g]
  {
    if n == 0 {
    } else {
      TimesIsMultiplicity(targets, n - 1, g);
      assert targets[..n] == targets[..n - 1] + [targets[n - 1]];
    }
  }

  lemma TargetsAreMemberships(groups: map<Key, seq<string>>, k: Key, g: string)
    ensures Times(Targets(groups, k), |Targets(groups, k)|, g) == Memberships(groups, k, g)
    ensures g in Targets(groups, k) <==> Memberships(groups, k, g) > 0
  {
    var targets := Targets(groups, k);
    TimesIsMultiplicity(targets, |targets|, g);
    assert targets[..|targets|] == targets;
    assert g in targets <==> g in multiset(targets);
  }

  /** A group's share: the counts of its members. */
  function Share(records: seq<Record>, groups: map<Key, seq<string>>, n: nat, g: string): int
    requires n <= |records|
  {
    if n == 0 then 0
    else Share(records, groups, n - 1, g) + records[n - 1].count * Memberships(groups, records[n - 1].key, g)
  }

  lemma DropCounts(buckets: Buckets, rec: Record, target: string, g: string)
    ensures CountIn(Drop(buckets, rec, target), g) == CountIn(buckets, g) + if g == target then rec.count else 0
  {
  }

  lemma OneMore(count: int, times: nat)
    ensures count * (times + 1) == count * times + count
  {
  }

  lemma {:induction false} DropAllCounts(buckets: Buckets, rec: Record, targets: seq<string>, n: nat, g: string)
    requires n <= |targets|
    ensures CountIn(DropAll(buckets, rec, targets, n), g) == CountIn(buckets, g) + rec.count * Times(targets, n, g)
  {
    if n == 0 {
    } else {
      DropAllCounts(buckets, rec, targets, n - 1, g);
      DropCounts(DropAll(buckets, rec, targets, n - 1), rec, targets[n - 1], g);
      OneMore(rec.count, Times(targets, n - 1, g));
    }
  }

  /** Each group gets the summed counts of its members. */
  lemma {:induction false} GroupGetsItsMembers(records: seq<Record>, groups: map<Key, seq<string>>, n: nat, g: string)
    requires n <= |records|
    ensures CountIn(Regrouped(records, groups, n), g) == Share(records, groups, n, g)
  {
    if n == 0 {
    } else {
      GroupGetsItsMembers(records, groups, n - 1, g);
      var targets := Targets(groups, records[n - 1].key);
      DropAllCounts(Regrouped(records, groups, n - 1), records[n - 1], targets, |targets|, g);
      TargetsAreMemberships(groups, records[n - 1].key, g);
    }
  }

  ghost function GrandTotal(buckets: Buckets): int
    decreases buckets.Keys
  {
    if buckets == map[] then 0
    else
      var g :| g in buckets;
      buckets[g].count + GrandTotal(buckets - {g})
  }

  /** The total does not depend on the order in which buckets are added up. */
  lemma {:induction false} TotalWithout(buckets: Buckets, g: string)
    requires g in buckets
    ensures GrandTotal(buckets) == buckets[g].count + GrandTotal(buckets - {g})
    decreases buckets.Keys
  {
    var first :| first in buckets && GrandTotal(buckets) == buckets[first].count + GrandTotal(buckets - {first});
    if first != g {
      TotalWithout(buckets - {first}, g);
      TotalWithout(buckets - {g}, first);
      assert buckets - {first} - {g} == buckets - {g} - {first};
    }
  }

  lemma TotalAfterDrop(buckets: Buckets, rec: Record, g: string)
    ensures GrandTotal(Drop(buckets, rec, g)) == GrandTotal(buckets) + rec.count
  {
    var after := Drop(buckets, rec, g);
    TotalWithout(after, g);
    if g in buckets {
      TotalWithout(buckets, g);
      assert after - {g} == buckets - {g};
    } else {
      assert after - {g} == buckets;
    }
  }

  lemma {:induction false} TotalAfterDrops(buckets: Buckets, rec: Record, targets: seq<string>, n: nat)
    requires n <= |targets|
    ensures GrandTotal(DropAll(buckets, rec, targets, n)) == GrandTotal(buckets) + rec.count * n
  {
    if n == 0 {
    } else {
      TotalAfterDrops(buckets, rec, targets, n - 1);
      TotalAfterDrop(DropAll(buckets, rec, targets, n - 1), rec, targets[n - 1]);
      assert rec.count * n == rec.count * (n - 1) + rec.count;
    }
  }

  function GroupsOf(groups: map<Key, seq<string>>, k: Key): nat {
    if k in groups then |groups[k]| else 0
  }

  function Weighted(records: seq<Record>, groups: map<Key, seq<string>>, n: nat): int
    requires n <= |records|
  {
    if n == 0 then 0
    else Weighted(records, groups, n - 1) + records[n - 1].count * Max(1, GroupsOf(groups, records[n - 1].key))
  }

  /** Nothing is lost and nothing invented: over all buckets, each record counts once per group it is
      in, and once if it is in none. */
  lemma {:induction false} GrandTotalIsWeighted(records: seq<Record>, groups: map<Key, seq<string>>, n: nat)
    requires n <= |records|
    ensures GrandTotal(Regrouped(records, groups, n)) == Weighted(records, groups, n)
  {
    if n == 0 {
    } else {
      GrandTotalIsWeighted(records, groups, n - 1);
      var targets := Targets(groups, records[n - 1].key);
      TotalAfterDrops(Regrouped(records, groups, n - 1), records[n - 1], targets, |targets|);
    }
  }

  /** Record `i` is counted in bucket `g`. */
  ghost predicate FallsInto(records: seq<Record>, groups: map<Key, seq<string>>, i: int, g: string) {
    0 <= i < |records| && Memberships(groups, records[i].key, g) > 0
  }

  function BucketAt(buckets: Buckets, g: string): Bucket {
    if g in buckets then buckets[g] else Bucket(0, {}, {}, 0)
  }

  /** What one record does to one bucket. */
  ghost predicate Grows(b: Bucket, after: Bucket, rec: Record, hit: bool) {
    if hit then
      && after.hosts == b.hosts + (if rec.key.0 != "" then {rec.key.0} else {})
      && after.services == b.services + (if rec.key.1 != "" then {rec.key} else {})
      && after.lastTime == Max(b.lastTime, rec.lastTime)
    else after == b
  }

  lemma {:induction false} DropAllGrows(buckets: Buckets, rec: Record, targets: seq<string>, n: nat, g: string)
    requires n <= |targets|
    ensures Grows(BucketAt(buckets, g), BucketAt(DropAll(buckets, rec, targets, n), g), rec, g in targets[..n])
  {
    if n == 0 {
    } else {
      DropAllGrows(buckets, rec, targets, n - 1, g);
      assert targets[..n] == targets[..n - 1] + [targets[n - 1]];
    }
  }

  lemma RegroupedGrows(records: seq<Record>, groups: map<Key, seq<string>>, n: nat, g: string)
    requires n < |records|
    ensures Grows(BucketAt(Regrouped(records, groups, n), g), BucketAt(Regrouped(records, groups, n + 1), g),
                  records[n], FallsInto(records, groups, n, g))
  {
    var targets := Targets(groups, records[n].key);
    DropAllGrows(Regrouped(records, groups, n), records[n], targets, |targets|, g);
    TargetsAreMemberships(groups, records[n].key, g);
    assert targets[..|targets|] == targets;
  }

  /** One record more can only be the witness itself. */
  lemma OneRecordMore(records: seq<Record>, groups: map<Key, seq<string>>, n: nat, g: string, wanted: Record -> bool)
    requires 0 < n <= |records|
    ensures SomeMember(records, groups, n, g, wanted) <==>
      SomeMember(records, groups, n - 1, g, wanted) || (FallsInto(records, groups, n - 1, g) && wanted(records[n - 1]))
  {
  }

  /** A record among the first `n` that falls into the bucket. */
  ghost predicate SomeMember(records: seq<Record>, groups: map<Key, seq<string>>, n: nat, g: string,
                             wanted: Record -> bool)
    requires n <= |records|
  {
    exists i :: 0 <= i < n && FallsInto(records, groups, i, g) && wanted(records[i])
  }

  function OfHost(h: string): Record -> bool {
    (r: Record) => r.key.0 == h
  }

  function OfObject(k: Key): Record -> bool {
    (r: Record) => r.key == k
  }

  function LastSeenAt(t: int): Record -> bool {
    (r: Record) => r.lastTime == t
  }

  lemma OneNameMore(b: Bucket, after: Bucket, rec: Record, hit: bool, h: string, k: Key)
    requires Grows(b, after, rec, hit)
    ensures h in after.hosts <==> h in b.hosts || (hit && h != "" && OfHost(h)(rec))
    ensures k in after.services <==> k in b.services || (hit && k.1 != "" && OfObject(k)(rec))
  {
  }

  /** A bucket names exactly the hosts of its members. */
  lemma {:induction false} BucketNamesItsHosts(records: seq<Record>, groups: map<Key, seq<string>>, n: nat,
                                               g: string, h: string)
    requires n <= |records|
    ensures h in BucketAt(Regrouped(records, groups, n), g).hosts <==>
      h != "" && SomeMember(records, groups, n, g, OfHost(h))
  {
    if n == 0 {
    } else {
      BucketNamesItsHosts(records, groups, n - 1, g, h);
      RegroupedGrows(records, groups, n - 1, g);
      OneNameMore(BucketAt(Regrouped(records, groups, n - 1), g), BucketAt(Regrouped(records, groups, n), g),
                  records[n - 1], FallsInto(records, groups, n - 1, g), h, records[n - 1].key);
      OneRecordMore(records, groups, n, g, OfHost(h));
    }
  }

  /** And exactly their services. */
  lemma {:induction false} BucketNamesItsServices(records: seq<Record>, groups: map<Key, seq<string>>, n: nat,
                                                  g: string, k: Key)
    requires n <= |records|
    ensures k in BucketAt(Regrouped(records, groups, n), g).services <==>
      k.1 != "" && SomeMember(records, groups, n, g, OfObject(k))
  {
    if n == 0 {
    } else {
      BucketNamesItsServices(records, groups, n - 1, g, k);
      RegroupedGrows(records, groups, n - 1, g);
      OneNameMore(BucketAt(Regrouped(records, groups, n - 1), g), BucketAt(Regrouped(records, groups, n), g),
                  records[n - 1], FallsInto(records, groups, n - 1, g), k.0, k);
      OneRecordMore(records, groups, n, g, OfObject(k));
    }
  }

  /** The latest time of the records among the first `n` that fall into the bucket; 0 where there is none. */
  ghost predicate IsLatest(records: seq<Record>, groups: map<Key, seq<string>>, n: nat, g: string, t: int)
    requires n <= |records|
  {
    && t >= 0
    && (forall i :: 0 <= i < n && FallsInto(records, groups, i, g) ==> records[i].lastTime <= t)
    && (t > 0 ==> SomeMember(records, groups, n, g, LastSeenAt(t)))
  }

  lemma LatestStep(records: seq<Record>, groups: map<Key, seq<string>>, n: nat, g: string, t: int)
    requires 0 < n <= |records| && IsLatest(records, groups, n - 1, g, t)
    ensures IsLatest(records, groups, n, g,
                     if FallsInto(records, groups, n - 1, g) then Max(t, records[n - 1].lastTime) else t)
  {
    var later := if FallsInto(records, groups, n - 1, g) then Max(t, records[n - 1].lastTime) else t;
    OneRecordMore(records, groups, n, g, LastSeenAt(later));
  }

  /** A bucket is as recent as its most recent member. */
  lemma {:induction false} BucketIsAsRecentAsItsMembers(records: seq<Record>, groups: map<Key, seq<string>>, n: nat,
                                                        g: string)
    requires n <= |records|
    ensures IsLatest(records, groups, n, g, BucketAt(Regrouped(records, groups, n), g).lastTime)
  {
    if n == 0 {
    } else {
      BucketIsAsRecentAsItsMembers(records, groups, n - 1, g);
      RegroupedGrows(records, groups, n - 1, g);
      LatestStep(records, groups, n, g, BucketAt(Regrouped(records, groups, n - 1), g).lastTime);
    }
  }

  // ---- From raw rows to groups -----------------------------------------------------------------

  /** The records handed to regrouping: one per object, with its merged count. */
  ghost predicate RecordsOf(records: seq<Record>, totals: Totals) {
    && (forall i :: 0 <= i < |records| ==> records[i].key in totals && records[i].count == totals[records[i].key].count)
    && (forall i, j :: 0 <= i < j < |records| ==> records[i].key != records[j].key)
    && (forall k :: k in totals ==> exists i :: 0 <= i < |records| && records[i].key == k)
  }

  /** How often the raw rows fall into group `g`. */
  ghost function RawShare(raw: seq<Alert>, groups: map<Key, seq<string>>, g: string): nat {
    if raw == [] then 0 else Memberships(groups, raw[0].key, g) + RawShare(raw[1..], groups, g)
  }

  /** The records' share of `g` if each record counted its raw rows directly. */
  ghost function ShareOfRaw(records: seq<Record>, groups: map<Key, seq<string>>, raw: seq<Alert>, n: nat,
                            g: string): int
    requires n <= |records|
  {
    if n == 0 then 0
    else
      ShareOfRaw(records, groups, raw, n - 1, g)
        + CountKey(raw, records[n - 1].key) * Memberships(groups, records[n - 1].key, g)
  }

  lemma {:induction false} OneMoreRow(records: seq<Record>, groups: map<Key, seq<string>>, raw: seq<Alert>, n: nat,
                                      g: string)
    requires n <= |records| && raw != []
    requires forall i, j :: 0 <= i < j < |records| ==> records[i].key != records[j].key
    ensures ShareOfRaw(records, groups, raw, n, g) == ShareOfRaw(records, groups, raw[1..], n, g) +
      if exists i :: 0 <= i < n && records[i].key == raw[0].key
      then Memberships(groups, raw[0].key, g) else 0
  {
    if n == 0 {
    } else {
      OneMoreRow(records, groups, raw, n - 1, g);
      var k := records[n - 1].key;
      var t := Memberships(groups, k, g);
      var c := CountKey(raw[1..], k);
      assert (c + 1) * t == c * t + t;
      if k == raw[0].key {
        assert !exists i :: 0 <= i < n - 1 && records[i].key == raw[0].key;
        assert records[n - 1].key == raw[0].key;
      } else if exists i :: 0 <= i < n && records[i].key == raw[0].key {
        var i :| 0 <= i < n && records[i].key == raw[0].key;
        assert i < n - 1;
      }
    }
  }

  lemma {:induction false} SharesAddUp(records: seq<Record>, groups: map<Key, seq<string>>, raw: seq<Alert>, g: string)
    requires forall i, j :: 0 <= i < j < |records| ==> records[i].key != records[j].key
    requires forall a :: a in raw ==> exists i :: 0 <= i < |records| && records[i].key == a.key
    ensures ShareOfRaw(records, groups, raw, |records|, g) == RawShare(raw, groups, g)
  {
    if raw == [] {
      NothingShared(records, groups, |records|, g);
    } else {
      assert raw[0] in raw;
      SharesAddUp(records, groups, raw[1..], g);
      OneMoreRow(records, groups, raw, |records|, g);
    }
  }

  lemma {:induction false} NothingShared(records: seq<Record>, groups: map<Key, seq<string>>, n: nat, g: string)
    requires n <= |records|
    ensures ShareOfRaw(records, groups, [], n, g) == 0
  {
    if n == 0 {
    } else {
      NothingShared(records, groups, n - 1, g);
    }
  }

  lemma {:induction false} SharesAgree(records: seq<Record>, groups: map<Key, seq<string>>, raw: seq<Alert>, n: nat,
                                       g: string)
    requires n <= |records|
    requires forall i :: 0 <= i < |records| ==> records[i].count == CountKey(raw, records[i].key)
    ensures Share(records, groups, n, g) == ShareOfRaw(records, groups, raw, n, g)
  {
    if n == 0 {
    } else {
      SharesAgree(records, groups, raw, n - 1, g);
    }
  }

  /** End to end: after server grouping, merging and regrouping, a group's number is what counting the
      raw rows of its members one by one would give. */
  lemma GroupCountsRawRows(data: seq<Group>, chunks: seq<seq<Alert>>, records: seq<Record>,
                           groups: map<Key, seq<string>>, g: string)
    requires Answers(data, chunks) && RecordsOf(records, TotalsOf(data, |data|))
    ensures CountIn(Regrouped(records, groups, |records|), g) ==
      RawShare(Flatten(chunks, |chunks|), groups, g)
  {
    var totals, raw := TotalsOf(data, |data|), Flatten(chunks, |chunks|);
    forall k ensures TotalsFor(totals, raw, k) { MergedIsRaw(data, chunks, |data|, k); }
    forall i | 0 <= i < |records| ensures records[i].count == CountKey(raw, records[i].key) {
      assert TotalsFor(totals, raw, records[i].key);
    }
    forall a | a in raw ensures exists i :: 0 <= i < |records| && records[i].key == a.key {
      CountedMeansThere(raw, a.key);
      assert TotalsFor(totals, raw, a.key);
    }
    GroupGetsItsMembers(records, groups, |records|, g);
    SharesAgree(records, groups, raw, |records|, g);
    SharesAddUp(records, groups, raw, g);
  }
}
