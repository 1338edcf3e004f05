/** The TTL cache with least-recently-used eviction (cache.py).

    The OrderedDict is a list of entries, least recently used first. The clock is a parameter of each
    call; nothing below assumes that it only moves forward. */
module TtlCache {
  import opened Basics

  datatype Entry<K, V> = Entry(key: K, expires: real, value: V)

  // ---- The ordered dictionary ------------------------------------------------------------------

  function Lookup<K(==), V>(store: seq<Entry<K, V>>, k: K): Option<Entry<K, V>> {
    if store == [] then None
    else if store[0].key == k then Some(store[0])
    else Lookup(store[1..], k)
  }

  function Remove<K(==), V>(store: seq<Entry<K, V>>, k: K): seq<Entry<K, V>> {
    if store == [] then []
    else if store[0].key == k then Remove(store[1..], k)
    else [store[0]] + Remove(store[1..], k)
  }

  ghost function Keys<K, V>(store: seq<Entry<K, V>>): set<K> {
    set e | e in store :: e.key
  }

  ghost predicate Distinct<K, V>(store: seq<Entry<K, V>>) {
    forall i, j :: 0 <= i < j < |store| ==> store[i].key != store[j].key
  }

  // ---- What the calls do -----------------------------------------------------------------------

  function StoreAfterGet<K(==), V>(store: seq<Entry<K, V>>, k: K, now: real): seq<Entry<K, V>> {
    match Lookup(store, k)
    case None => store
    case Some(e) => if now >= e.expires then Remove(store, k) else Remove(store, k) + [e]
  }

  function GetResult<K(==), V>(store: seq<Entry<K, V>>, k: K, now: real): Option<V> {
    match Lookup(store, k)
    case None => None
    case Some(e) => if now >= e.expires then None else Some(e.value)
  }

  /** The entry that makes room for `k`, if one must go. */
  function StoreAfterSet<K(==), V>(store: seq<Entry<K, V>>, maxsize: int, k: K, v: V, expires: real): seq<Entry<K, V>>
    requires maxsize >= 1
  {
    var e := Entry(k, expires, v);
    if Lookup(store, k).Some? then Remove(store, k) + [e]
    else if |store| >= maxsize then store[1..] + [e]
    else store + [e]
  }

  class TTLCache<K(==, !new), V(!new)> {
    const defaultTtl: real
    const maxsize: int
    var store: seq<Entry<K, V>>

    ghost predicate Valid()
      reads this
    {
      Distinct(store) && |store| <= if maxsize < 0 then 0 else maxsize
    }

    constructor (defaultTtl: real, maxsize: int)
      ensures Valid() && store == [] && this.defaultTtl == defaultTtl && this.maxsize == maxsize
    {
      this.defaultTtl := defaultTtl;
      this.maxsize := maxsize;
      store := [];
    }

    method Get(k: K, now: real) returns (r: Option<V>)
      requires Valid()
      modifies this
      ensures Valid()
      ensures store == StoreAfterGet(old(store), k, now) && r == GetResult(old(store), k, now)
    {
      GetKeepsInvariant(store, k, now);
      var entry := Lookup(store, k);
      if entry == None {
        return None;
      }
      store := Remove(store, k);
      if now >= entry.value.expires {
        return None;
      }
      store := store + [entry.value];
      return Some(entry.value.value);
    }

    /** With no room at all, eviction from the empty dictionary raises KeyError. */
    method Set(k: K, v: V, ttl: Option<real>, now: real) returns (keyError: bool)
      requires Valid()
      modifies this
      ensures Valid()
      ensures keyError <==> maxsize <= 0
      ensures keyError ==> store == old(store)
      ensures !keyError ==>
        store == StoreAfterSet(old(store), maxsize, k, v, now + if ttl.Some? then ttl.value else defaultTtl)
    {
      var expires := now + if ttl.Some? then ttl.value else defaultTtl;
      if maxsize >= 1 {
        SetKeepsInvariant(store, maxsize, k, v, expires);
      }
      if Lookup(store, k).Some? {
        LookupIsMembership(store, k);
        store := Remove(store, k);
      } else if |store| >= maxsize {
        if store == [] {
          return true;
        }
        store := store[1..];
      }
      store := store + [Entry(k, expires, v)];
      return false;
    }

    method Clear()
      requires Valid()
      modifies this
      ensures Valid() && store == []
    {
      store := [];
    }
  }

  // ---- Keys stay distinct and few --------------------------------------------------------------

  lemma {:induction false} RemoveIs<K(!new), V(!new)>(store: seq<Entry<K, V>>, k: K)
    ensures forall e :: e in Remove(store, k) <==> e in store && e.key != k
    ensures Distinct(store) ==> Distinct(Remove(store, k))
  {
    if store == [] {
    } else {
      RemoveIs(store[1..], k);
      assert store == [store[0]] + store[1..];
    }
  }

  lemma {:induction false} LookupIsMembership<K, V>(store: seq<Entry<K, V>>, k: K)
    ensures Lookup(store, k).Some? ==> Lookup(store, k).value in store && Lookup(store, k).value.key == k
    ensures Lookup(store, k).None? <==> k !in Keys(store)
  {
    if store == [] {
    } else {
      LookupIsMembership(store[1..], k);
      assert store == [store[0]] + store[1..];
    }
  }

  lemma {:induction false} RemoveShortens<K, V>(store: seq<Entry<K, V>>, k: K)
    ensures |Remove(store, k)| <= |store|
    ensures k in Keys(store) ==> |Remove(store, k)| < |store|
  {
    if store == [] {
    } else {
      RemoveShortens(store[1..], k);
      assert store == [store[0]] + store[1..];
    }
  }

  lemma AppendDistinct<K(!new), V(!new)>(store: seq<Entry<K, V>>, e: Entry<K, V>)
    requires Distinct(store) && e.key !in Keys(store)
    ensures Distinct(store + [e])
  {
    forall i | 0 <= i < |store| ensures store[i].key != e.key {
      assert store[i] in store;
    }
  }

  lemma RemovedIsGone<K(!new), V(!new)>(store: seq<Entry<K, V>>, k: K)
    requires Distinct(store)
    ensures Distinct(Remove(store, k)) && k !in Keys(Remove(store, k))
  {
    RemoveIs(store, k);
  }

  lemma GetKeepsInvariant<K(!new), V(!new)>(store: seq<Entry<K, V>>, k: K, now: real)
    requires Distinct(store)
    ensures Distinct(StoreAfterGet(store, k, now)) && |StoreAfterGet(store, k, now)| <= |store|
  {
    LookupIsMembership(store, k);
    RemovedIsGone(store, k);
    RemoveShortens(store, k);
    if Lookup(store, k).Some? {
      AppendDistinct(Remove(store, k), Lookup(store, k).value);
    }
  }

  lemma SetKeepsInvariant<K(!new), V(!new)>(store: seq<Entry<K, V>>, maxsize: int, k: K, v: V, expires: real)
    requires maxsize >= 1 && Distinct(store) && |store| <= maxsize
    ensures Distinct(StoreAfterSet(store, maxsize, k, v, expires))
    ensures |StoreAfterSet(store, maxsize, k, v, expires)| <= maxsize
  {
    LookupIsMembership(store, k);
    RemovedIsGone(store, k);
    RemoveShortens(store, k);
    var e := Entry(k, expires, v);
    if Lookup(store, k).Some? {
      AppendDistinct(Remove(store, k), e);
    } else if |store| >= maxsize {
      assert forall x :: x in store[1..] ==> x in store;
      AppendDistinct(store[1..], e);
    } else {
      AppendDistinct(store, e);
    }
  }

  // ---- Whole runs ------------------------------------------------------------------------------

  datatype Op<K, V> = Get(key: K, now: real) | Set(key: K, value: V, expires: real) | Clear

  ghost function Step<K, V>(store: seq<Entry<K, V>>, maxsize: int, op: Op<K, V>): seq<Entry<K, V>>
    requires maxsize >= 1
  {
    match op
    case Get(k, now) => StoreAfterGet(store, k, now)
    case Set(k, v, expires) => StoreAfterSet(store, maxsize, k, v, expires)
    case Clear => []
  }

  ghost function Run<K, V>(store: seq<Entry<K, V>>, maxsize: int, ops: seq<Op<K, V>>): seq<Entry<K, V>>
    requires maxsize >= 1
    decreases |ops|
  {
    if ops == [] then store else Run(Step(store, maxsize, ops[0]), maxsize, ops[1..])
  }

  lemma StepKeepsInvariant<K(!new), V(!new)>(store: seq<Entry<K, V>>, maxsize: int, op: Op<K, V>)
    requires maxsize >= 1 && Distinct(store) && |store| <= maxsize
    ensures Distinct(Step(store, maxsize, op)) && |Step(store, maxsize, op)| <= maxsize
  {
    match op
    case Get(k, now) => GetKeepsInvariant(store, k, now);
    case Set(k, v, expires) => SetKeepsInvariant(store, maxsize, k, v, expires);
    case Clear =>
  }

  /** Whatever is called, the cache never outgrows `maxsize` and holds one entry per key. */
  lemma {:induction false} RunKeepsInvariant<K(!new), V(!new)>(store: seq<Entry<K, V>>, maxsize: int, ops: seq<Op<K,
                                                               V>>)
    requires maxsize >= 1 && Distinct(store) && |store| <= maxsize
    ensures Distinct(Run(store, maxsize, ops)) && |Run(store, maxsize, ops)| <= maxsize
    decreases |ops|
  {
    if ops == [] {
    } else {
      StepKeepsInvariant(store, maxsize, ops[0]);
      RunKeepsInvariant(Step(store, maxsize, ops[0]), maxsize, ops[1..]);
    }
  }

  // ---- Agreement with an unbounded TTL map -----------------------------------------------------

  /** The cache one would have without a size limit: the last entry set for each key. */
  ghost function Unbounded<K, V>(known: map<K, Entry<K, V>>, ops: seq<Op<K, V>>): map<K, Entry<K, V>>
    decreases |ops|
  {
    if ops == [] then known
    else
      Unbounded(match ops[0]
                case Get(_, _) => known
                case Set(k, v, expires) => known[k := Entry(k, expires, v)]
                case Clear => map[],
                ops[1..])
  }

  ghost predicate Agrees<K(!new), V(!new)>(store: seq<Entry<K, V>>, known: map<K, Entry<K, V>>) {
    forall e :: e in store ==> e.key in known && known[e.key] == e
  }

  lemma StepAgrees<K(!new), V(!new)>(store: seq<Entry<K, V>>, maxsize: int, known: map<K, Entry<K, V>>, op: Op<K, V>)
    requires maxsize >= 1 && Distinct(store) && Agrees(store, known)
    ensures Agrees(Step(store, maxsize, op),
                   match op
                   case Get(_, _) => known
                   case Set(k, v, expires) => known[k := Entry(k, expires, v)]
                   case Clear => map[])
  {
    if !op.Clear? {
      RemoveIs(store, op.key);
      LookupIsMembership(store, op.key);
      assert |store| > 0 ==> forall e :: e in store[1..] ==> e in store;
      assert forall e :: e in store && Lookup(store, op.key).None? ==> e.key != op.key;
    }
  }

  lemma {:induction false} RunAgrees<K(!new), V(!new)>(store: seq<Entry<K, V>>, maxsize: int,
                                                       known: map<K, Entry<K, V>>, ops: seq<Op<K, V>>)
    requires maxsize >= 1 && Distinct(store) && |store| <= maxsize && Agrees(store, known)
    ensures Agrees(Run(store, maxsize, ops), Unbounded(known, ops))
    decreases |ops|
  {
    if ops == [] {
    } else {
      StepKeepsInvariant(store, maxsize, ops[0]);
      StepAgrees(store, maxsize, known, ops[0]);
      var next := match ops[0]
        case Get(_, _) => known
        case Set(k, v, expires) => known[k := Entry(k, expires, v)]
        case Clear => map[];
      RunAgrees(Step(store, maxsize, ops[0]), maxsize, next, ops[1..]);
    }
  }

  /** After any run, a hit returns the value last set for that key, and that value has not expired. */
  lemma HitIsLastSet<K(!new), V(!new)>(maxsize: int, ops: seq<Op<K, V>>, k: K, now: real)
    requires maxsize >= 1
    ensures var r := GetResult(Run([], maxsize, ops), k, now);
      var known := Unbounded(map[], ops);
      r.Some? ==> k in known && known[k].value == r.value && now < known[k].expires
  {
    RunAgrees<K, V>([], maxsize, map[], ops);
    LookupIsMembership(Run([], maxsize, ops), k);
  }

  // ---- Who survives ----------------------------------------------------------------------------

  /** The key an operation brings to the recent end: a key that is set, or read while fresh. */
  ghost function TouchedBy<K(!new), V(!new)>(store: seq<Entry<K, V>>, op: Op<K, V>): set<K> {
    match op
    case Get(k, now) => if GetResult(store, k, now).Some? then {k} else {}
    case Set(k, _, _) => {k}
    case Clear => {}
  }

  ghost function Touched<K(!new), V(!new)>(store: seq<Entry<K, V>>, maxsize: int, ops: seq<Op<K, V>>): set<K>
    requires maxsize >= 1
    decreases |ops|
  {
    if ops == [] then {}
    else TouchedBy(store, ops[0]) + Touched(Step(store, maxsize, ops[0]), maxsize, ops[1..])
  }

  /** No operation reads, sets or clears away `k`. */
  ghost predicate LeavesAlone<K(!new), V(!new)>(ops: seq<Op<K, V>>, k: K) {
    forall op :: op in ops ==> !op.Clear? && op.key != k
  }

  /** No read drops an expired entry. */
  ghost predicate NothingExpires<K(!new), V(!new)>(store: seq<Entry<K, V>>, maxsize: int, ops: seq<Op<K, V>>)
    requires maxsize >= 1
    decreases |ops|
  {
    ops != [] ==>
      && (ops[0].Get? && Lookup(store, ops[0].key).Some? ==> ops[0].now < Lookup(store, ops[0].key).value.expires)
      && NothingExpires(Step(store, maxsize, ops[0]), maxsize, ops[1..])
  }

  /** The store split at `e`: older entries before it, younger after it. */
  ghost predicate SplitAt<K(!new), V(!new)>(store: seq<Entry<K, V>>, older: seq<Entry<K, V>>, e: Entry<K, V>,
                                            younger: seq<Entry<K, V>>) {
    store == older + [e] + younger && Distinct(store)
  }

  lemma {:induction false} RemoveAppend<K(!new), V(!new)>(a: seq<Entry<K, V>>, b: seq<Entry<K, V>>, k: K)
    ensures Remove(a + b, k) == Remove(a, k) + Remove(b, k)
  {
    if a == [] {
      assert a + b == b;
    } else {
      assert (a + b)[1..] == a[1..] + b;
      RemoveAppend(a[1..], b, k);
      assert [a[0]] + (Remove(a[1..], k) + Remove(b, k)) == [a[0]] + Remove(a[1..], k) + Remove(b, k);
    }
  }

  lemma RemoveAround<K(!new), V(!new)>(older: seq<Entry<K, V>>, e: Entry<K, V>, younger: seq<Entry<K, V>>, k: K)
    requires k != e.key
    ensures Remove(older + [e] + younger, k) == Remove(older, k) + [e] + Remove(younger, k)
    ensures Keys(Remove(younger, k)) == Keys(younger) - {k}
  {
    RemoveAppend(older + [e], younger, k);
    RemoveAppend(older, [e], k);
    RemoveIs(younger, k);
  }

  lemma {:induction false} DistinctKeysCount<K(!new), V(!new)>(store: seq<Entry<K, V>>)
    requires Distinct(store)
    ensures |Keys(store)| == |store|
  {
    if store == [] {
    } else {
      DistinctKeysCount(store[1..]);
      assert store == [store[0]] + store[1..];
      assert Keys(store) == {store[0].key} + Keys(store[1..]);
      FirstKeyIsUnique(store);
    }
  }

  lemma FirstKeyIsUnique<K(!new), V(!new)>(store: seq<Entry<K, V>>)
    requires store != [] && Distinct(store)
    ensures store[0].key !in Keys(store[1..])
  {
    forall x | x in store[1..] ensures x.key != store[0].key {
      var i :| 1 <= i < |store| && store[i] == x;
    }
  }

  lemma KeysOfParts<K(!new), V(!new)>(a: seq<Entry<K, V>>, b: seq<Entry<K, V>>)
    ensures Keys(a + b) == Keys(a) + Keys(b)
  {
    assert forall e :: e in a + b <==> e in a || e in b;
  }

  lemma YoungerAreDistinct<K(!new), V(!new)>(store: seq<Entry<K, V>>, older: seq<Entry<K, V>>, e: Entry<K, V>,
                                             younger: seq<Entry<K, V>>)
    requires SplitAt(store, older, e, younger)
    ensures Distinct(younger) && e.key !in Keys(younger)
  {
    assert store[|older|] == e;
    assert forall i :: 0 <= i < |younger| ==> younger[i] == store[|older| + 1 + i];
    forall x | x in younger ensures x.key != e.key {
      var i :| 0 <= i < |younger| && younger[i] == x;
      assert store[|older| + 1 + i] == x;
    }
  }

  lemma YoungerAreCounted<K(!new), V(!new)>(store: seq<Entry<K, V>>, older: seq<Entry<K, V>>, e: Entry<K, V>,
                                            younger: seq<Entry<K, V>>)
    requires SplitAt(store, older, e, younger)
    ensures |Keys(younger)| == |store| - |older| - 1
    ensures Keys(store) == Keys(older) + {e.key} + Keys(younger)
    ensures e.key !in Keys(younger)
  {
    KeysOfParts(older + [e], younger);
    KeysOfParts(older, [e]);
    YoungerAreDistinct(store, older, e, younger);
    DistinctKeysCount(younger);
  }

  /** A full cache evicts `e` exactly when all its other keys are younger. */
  lemma NotYetOldest<K(!new), V(!new)>(store: seq<Entry<K, V>>, maxsize: int, older: seq<Entry<K, V>>, e: Entry<K, V>,
                                       younger: seq<Entry<K, V>>, touched: set<K>, k: K)
    requires SplitAt(store, older, e, younger) && |store| >= maxsize && k !in Keys(store)
    requires Keys(younger) <= touched && |touched + {k}| < maxsize
    ensures older != []
  {
    YoungerAreCounted(store, older, e, younger);
    Fewer(Keys(younger) + {k}, touched + {k});
    assert |Keys(younger) + {k}| == |Keys(younger)| + 1;
  }

  /** Reading another key: `e` stays, and what is younger than `e` was touched. */
  lemma SurviveGet<K(!new), V(!new)>(store: seq<Entry<K, V>>, k: K, now: real, older: seq<Entry<K, V>>,
                                     e: Entry<K, V>, younger: seq<Entry<K, V>>)
      returns (older': seq<Entry<K, V>>, younger': seq<Entry<K, V>>)
    requires SplitAt(store, older, e, younger) && k != e.key
    ensures StoreAfterGet(store, k, now) == older' + [e] + younger'
    ensures Keys(younger') <= Keys(younger) + TouchedBy(store, Get(k, now))
    ensures (Lookup(store, k).Some? ==> now < Lookup(store, k).value.expires) ==>
      Keys(younger') == Keys(younger) + TouchedBy(store, Get(k, now))
  {
    LookupIsMembership(store, k);
    RemoveAround(older, e, younger, k);
    if Lookup(store, k).None? {
      older', younger' := older, younger;
    } else {
      var x := Lookup(store, k).value;
      older' := Remove(older, k);
      younger' := if now >= x.expires then Remove(younger, k) else Remove(younger, k) + [x];
      KeysOfParts(Remove(younger, k), [x]);
    }
  }

  /** Setting another key, likewise, as long as there is a key older than `e` to evict. */
  lemma SurviveSet<K(!new), V(!new)>(store: seq<Entry<K, V>>, maxsize: int, k: K, v: V, expires: real,
                                     older: seq<Entry<K, V>>, e: Entry<K, V>, younger: seq<Entry<K, V>>)
      returns (older': seq<Entry<K, V>>, younger': seq<Entry<K, V>>)
    requires maxsize >= 1 && SplitAt(store, older, e, younger) && k != e.key
    requires Lookup(store, k).None? && |store| >= maxsize ==> older != []
    ensures StoreAfterSet(store, maxsize, k, v, expires) == older' + [e] + younger'
    ensures Keys(younger') == Keys(younger) + {k}
  {
    var x := Entry(k, expires, v);
    if Lookup(store, k).Some? {
      RemoveAround(older, e, younger, k);
      older', younger' := Remove(older, k), Remove(younger, k) + [x];
      KeysOfParts(Remove(younger, k), [x]);
    } else {
      KeysOfParts(younger, [x]);
      younger' := younger + [x];
      if |store| >= maxsize {
        older' := older[1..];
        assert store[1..] == older' + [e] + younger;
      } else {
        older' := older;
      }
    }
  }

  lemma SurviveStep<K(!new), V(!new)>(store: seq<Entry<K, V>>, maxsize: int, op: Op<K, V>, older: seq<Entry<K, V>>,
                                      e: Entry<K, V>, younger: seq<Entry<K, V>>, touched: set<K>)
      returns (older': seq<Entry<K, V>>, younger': seq<Entry<K, V>>)
    requires maxsize >= 1 && SplitAt(store, older, e, younger)
    requires !op.Clear? && op.key != e.key && Keys(younger) <= touched
    requires |touched + TouchedBy(store, op)| < maxsize
    ensures Step(store, maxsize, op) == older' + [e] + younger'
    ensures Keys(younger') <= touched + TouchedBy(store, op)
    ensures Keys(younger) == touched && NothingExpires(store, maxsize, [op]) ==>
      Keys(younger') == touched + TouchedBy(store, op)
  {
    if op.Get? {
      older', younger' := SurviveGet(store, op.key, op.now, older, e, younger);
    } else {
      LookupIsMembership(store, op.key);
      if Lookup(store, op.key).None? && |store| >= maxsize {
        NotYetOldest(store, maxsize, older, e, younger, touched, op.key);
      }
      older', younger' := SurviveSet(store, maxsize, op.key, op.value, op.expires, older, e, younger);
    }
  }

  /** A key survives while fewer than `maxsize` other keys have been touched since its last touch: it is
      still stored, with the same value and the same expiry. */
  lemma {:induction false} SurvivesWhileFewTouched<K(!new), V(!new)>(
      store: seq<Entry<K, V>>, maxsize: int, ops: seq<Op<K, V>>,
      older: seq<Entry<K, V>>, e: Entry<K, V>, younger: seq<Entry<K, V>>, touched: set<K>)
    requires maxsize >= 1 && |store| <= maxsize && SplitAt(store, older, e, younger)
    requires LeavesAlone(ops, e.key) && Keys(younger) <= touched
    requires |touched + Touched(store, maxsize, ops)| < maxsize
    ensures e in Run(store, maxsize, ops)
    decreases |ops|
  {
    if ops == [] {
    } else {
      var op := ops[0];
      assert op in ops;
      Fewer(touched + TouchedBy(store, op), touched + Touched(store, maxsize, ops));
      var older', younger' := SurviveStep(store, maxsize, op, older, e, younger, touched);
      StepKeepsInvariant(store, maxsize, op);
      assert touched + TouchedBy(store, op) + Touched(Step(store, maxsize, op), maxsize, ops[1..])
          == touched + Touched(store, maxsize, ops);
      SurvivesWhileFewTouched(Step(store, maxsize, op), maxsize, ops[1..], older', e, younger',
                              touched + TouchedBy(store, op));
    }
  }

  lemma {:induction false} AbsentStaysAbsent<K(!new), V(!new)>(store: seq<Entry<K, V>>, maxsize: int, ops: seq<Op<K,
                                                               V>>, k: K)
    requires maxsize >= 1 && LeavesAlone(ops, k) && k !in Keys(store)
    ensures k !in Keys(Run(store, maxsize, ops))
    decreases |ops|
  {
    if ops == [] {
    } else {
      assert ops[0] in ops;
      RemoveIs(store, ops[0].key);
      LookupIsMembership(store, ops[0].key);
      assert |store| > 0 ==> forall x :: x in store[1..] ==> x in store;
      AbsentStaysAbsent(Step(store, maxsize, ops[0]), maxsize, ops[1..], k);
    }
  }

  lemma NoRoomLeft<K(!new), V(!new)>(store: seq<Entry<K, V>>, maxsize: int, k: K, older: seq<Entry<K, V>>,
                                     e: Entry<K, V>, younger: seq<Entry<K, V>>)
    requires maxsize >= 1 && |store| <= maxsize && SplitAt(store, older, e, younger)
    requires |Keys(younger) + {k}| >= maxsize && k != e.key
    ensures older == [] && |store| == maxsize && k !in Keys(store)
  {
    YoungerAreCounted(store, older, e, younger);
    assert k in Keys(younger) ==> Keys(younger) + {k} == Keys(younger);
    assert |Keys(younger) + {k}| == |Keys(younger)| + 1;
    assert older == [];
    assert Keys(older) == {};
  }

  lemma FirstIsEvicted<K(!new), V(!new)>(e: Entry<K, V>, younger: seq<Entry<K, V>>, maxsize: int, op: Op<K, V>)
    requires maxsize >= 1 && |younger| + 1 == maxsize && e.key !in Keys(younger)
    requires op.Set? && op.key != e.key && op.key !in Keys([e] + younger)
    ensures e.key !in Keys(Step([e] + younger, maxsize, op))
  {
    LookupIsMembership([e] + younger, op.key);
    assert ([e] + younger)[1..] == younger;
    KeysOfParts(younger, [Entry(op.key, op.expires, op.value)]);
  }

  lemma KeyIsTouched<K(!new), V(!new)>(store: seq<Entry<K, V>>, maxsize: int, op: Op<K, V>, older: seq<Entry<K, V>>,
                                       e: Entry<K, V>, younger: seq<Entry<K, V>>)
    requires |store| <= maxsize && SplitAt(store, older, e, younger)
    requires !op.Clear? && |Keys(younger) + TouchedBy(store, op)| >= maxsize
    ensures TouchedBy(store, op) == {op.key} && (op.Get? ==> op.key in Keys(store))
  {
    LookupIsMembership(store, op.key);
    YoungerAreCounted(store, older, e, younger);
    assert Keys(younger) + {} == Keys(younger);
  }

  /** The operation that touches the last key there was room for evicts `e`. */
  lemma EvictedAtLimit<K(!new), V(!new)>(store: seq<Entry<K, V>>, maxsize: int, op: Op<K, V>, older: seq<Entry<K, V>>,
                                         e: Entry<K, V>, younger: seq<Entry<K, V>>)
    requires maxsize >= 1 && |store| <= maxsize && SplitAt(store, older, e, younger)
    requires !op.Clear? && op.key != e.key
    requires |Keys(younger) + TouchedBy(store, op)| >= maxsize
    ensures e.key !in Keys(Step(store, maxsize, op))
  {
    KeyIsTouched(store, maxsize, op, older, e, younger);
    NoRoomLeft(store, maxsize, op.key, older, e, younger);
    YoungerAreCounted(store, older, e, younger);
    assert store == [e] + younger;
    FirstIsEvicted(e, younger, maxsize, op);
  }

  /** When no read meets an expired entry meanwhile, that is exact: a key just brought to the recent end
      is still there if and only if fewer than `maxsize` other keys were touched since. */
  lemma {:induction false} SurvivesExactly<K(!new), V(!new)>(
      store: seq<Entry<K, V>>, maxsize: int, ops: seq<Op<K, V>>,
      older: seq<Entry<K, V>>, e: Entry<K, V>, younger: seq<Entry<K, V>>)
    requires maxsize >= 1 && |store| <= maxsize && SplitAt(store, older, e, younger)
    requires LeavesAlone(ops, e.key) && NothingExpires(store, maxsize, ops)
    ensures e.key in Keys(Run(store, maxsize, ops)) <==>
      |Keys(younger) + Touched(store, maxsize, ops)| < maxsize
    decreases |ops|
  {
    YoungerAreCounted(store, older, e, younger);
    if ops == [] {
      assert Keys(younger) + {} == Keys(younger);
    } else {
      var op, next := ops[0], Step(store, maxsize, ops[0]);
      assert op in ops;
      var all := Keys(younger) + Touched(store, maxsize, ops);
      assert all == Keys(younger) + TouchedBy(store, op) + Touched(next, maxsize, ops[1..]);
      Fewer(Keys(younger) + TouchedBy(store, op), all);
      if |Keys(younger) + TouchedBy(store, op)| < maxsize {
        StepKeepsInvariant(store, maxsize, op);
        FreshStep(store, maxsize, ops);
        var older', younger' := SurviveStep(store, maxsize, op, older, e, younger, Keys(younger));
        SurvivesExactly(next, maxsize, ops[1..], older', e, younger');
      } else {
        EvictedAtLimit(store, maxsize, op, older, e, younger);
        AbsentStaysAbsent(next, maxsize, ops[1..], e.key);
      }
    }
  }

  lemma FreshStep<K(!new), V(!new)>(store: seq<Entry<K, V>>, maxsize: int, ops: seq<Op<K, V>>)
    requires maxsize >= 1 && ops != [] && NothingExpires(store, maxsize, ops)
    ensures NothingExpires(store, maxsize, [ops[0]])
    ensures NothingExpires(Step(store, maxsize, ops[0]), maxsize, ops[1..])
  {
  }

  lemma TouchPutsLast<K(!new), V(!new)>(store: seq<Entry<K, V>>, maxsize: int, touch: Op<K, V>)
      returns (older: seq<Entry<K, V>>, e: Entry<K, V>)
    requires maxsize >= 1 && Distinct(store) && |store| <= maxsize && TouchedBy(store, touch) != {}
    ensures SplitAt(Step(store, maxsize, touch), older, e, []) && e.key == touch.key
  {
    StepKeepsInvariant(store, maxsize, touch);
    LookupIsMembership(store, touch.key);
    var after := Step(store, maxsize, touch);
    older, e := after[..|after| - 1], after[|after| - 1];
    assert after == older + [e] + [];
  }

  /** The promise of the cache over any history: take any run, then a set or a successful read of a key,
      then any operations on other keys. The key is still stored if fewer than `maxsize` other keys were
      touched in between; and, when no read met an expired entry in between, only if. */
  lemma TouchedKeySurvives<K(!new), V(!new)>(maxsize: int, before: seq<Op<K, V>>, touch: Op<K, V>, between: seq<Op<K,
                                             V>>)
    requires maxsize >= 1 && TouchedBy(Run([], maxsize, before), touch) != {}
    requires LeavesAlone(between, touch.key)
    ensures var store := Step(Run([], maxsize, before), maxsize, touch);
      && (|Touched(store, maxsize, between)| < maxsize ==>
            touch.key in Keys(Run(store, maxsize, between))
            && exists e :: e in store && e.key == touch.key && e in Run(store, maxsize, between))
      && (NothingExpires(store, maxsize, between) ==>
            (touch.key in Keys(Run(store, maxsize, between)) <==> |Touched(store, maxsize, between)| < maxsize))
  {
    RunKeepsInvariant<K, V>([], maxsize, before);
    var start := Run([], maxsize, before);
    StepKeepsInvariant(start, maxsize, touch);
    var older, e := TouchPutsLast(start, maxsize, touch);
    var store := Step(start, maxsize, touch);
    var none: set<K> := {};
    assert Keys<K, V>([]) == none;
    assert none + Touched(store, maxsize, between) == Touched(store, maxsize, between);
    if |Touched(store, maxsize, between)| < maxsize {
      SurvivesWhileFewTouched(store, maxsize, between, older, e, [], none);
    }
    if NothingExpires(store, maxsize, between) {
      SurvivesExactly(store, maxsize, between, older, e, []);
    }
  }
}
