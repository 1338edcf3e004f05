/** The difference of two reconstructed states (tools/history.py). */
module StateDiff {
  import opened Basics
  import opened Order
  import opened TimeOrder
  import opened StateReplay

  datatype Category = NewProblem | Recovered | StateChanged | DowntimeChanged | AckChanged

  /** A dimension that moved, with both its values. */
  datatype Move<T> = Same | Moved(from: T, to: T)

  datatype Change = Change(key: Key, category: Category, state: Move<Option<int>>,
                           downtime: Move<bool>, ack: Move<bool>)

  predicate IsProblem(rec: Rec) {
    rec.state.Some? && rec.state.value > 0
  }

  function Compare<T(==)>(b: T, a: T): Move<T> {
    if b != a then Moved(b, a) else Same
  }

  predicate Differs(b: Rec, a: Rec) {
    b.state != a.state || b.inDowntime != a.inDowntime || b.acknowledged != a.acknowledged
  }

  function CategoryOf(b: Rec, a: Rec): Category {
    if b.state != a.state then
      if !IsProblem(b) && IsProblem(a) then NewProblem
      else if IsProblem(b) && !IsProblem(a) then Recovered
      else StateChanged
    else if b.inDowntime != a.inDowntime then DowntimeChanged
    else AckChanged
  }

  function ChangeOf(k: Key, b: Rec, a: Rec): Change {
    Change(k, CategoryOf(b, a), Compare(b.state, a.state), Compare(b.inDowntime, a.inDowntime),
           Compare(b.acknowledged, a.acknowledged))
  }

  /** The changes over a list of keys, in that order. */
  function DiffOver(keys: seq<Key>, before: States, after: States): seq<Change> {
    if keys == [] then []
    else
      var b, a := RecOf(before, keys[0]), RecOf(after, keys[0]);
      (if Differs(b, a) then [ChangeOf(keys[0], b, a)] else []) + DiffOver(keys[1..], before, after)
  }

  ghost function KeysOf(before: States, after: States): seq<Key> {
    PairsAreTotallyOrdered();
    Sorted(before.Keys + after.Keys, PairLe)
  }

  ghost function Diff(before: States, after: States): seq<Change> {
    DiffOver(KeysOf(before, after), before, after)
  }

  function CountOf(changes: seq<Change>, c: Category): nat {
    if changes == [] then 0 else (if changes[0].category == c then 1 else 0) + CountOf(changes[1..], c)
  }

  ghost predicate CountsAre(counts: map<Category, nat>, changes: seq<Change>) {
    && (forall c :: CountOf(changes, c) == if c in counts then counts[c] else 0)
    && (forall c :: c in counts ==> counts[c] > 0)
  }

  /** `counts[c] = counts.get(c, 0) + 1`. */
  function Bump(counts: map<Category, nat>, c: Category): map<Category, nat> {
    counts[c := (if c in counts then counts[c] else 0) + 1]
  }

  /** `sorted(before.keys() | after.keys())`. */
  method SortedKeys(before: States, after: States) returns (keys: seq<Key>)
    ensures keys == KeysOf(before, after)
  {
    PairsAreTotallyOrdered();
    keys := SortSet(before.Keys + after.Keys, PairLe);
  }

  lemma DiffStep(keys: seq<Key>, i: nat, before: States, after: States, changes: seq<Change>)
    requires i < |keys| && changes + DiffOver(keys[i..], before, after) == DiffOver(keys, before, after)
    ensures var b, a := RecOf(before, keys[i]), RecOf(after, keys[i]);
      (if Differs(b, a) then changes + [ChangeOf(keys[i], b, a)] else changes)
        + DiffOver(keys[i + 1..], before, after) == DiffOver(keys, before, after)
  {
    assert keys[i..][1..] == keys[i + 1..];
  }

  method DiffStates(before: States, after: States) returns (changes: seq<Change>, counts: map<Category, nat>)
    ensures changes == Diff(before, after)
    ensures CountsAre(counts, changes)
  {
    var keys := SortedKeys(before, after);
    changes, counts := [], map[];
    for i := 0 to |keys|
      invariant changes + DiffOver(keys[i..], before, after) == DiffOver(keys, before, after)
      invariant CountsAre(counts, changes)
    {
      var k := keys[i];
      DiffStep(keys, i, before, after, changes);
      var b, a := RecOf(before, k), RecOf(after, k);
      if Differs(b, a) {
        var change := ChangeOf(k, b, a);
        CountOneMore(counts, changes, change);
        counts := Bump(counts, change.category);
        changes := changes + [change];
      }
    }
    assert keys[|keys|..] == [];
  }

  lemma CountOneMore(counts: map<Category, nat>, changes: seq<Change>, x: Change)
    requires CountsAre(counts, changes)
    ensures CountsAre(Bump(counts, x.category), changes + [x])
  {
    forall c ensures CountOf(changes + [x], c) == CountOf(changes, c) + (if x.category == c then 1 else 0) {
      CountAppend(changes, x, c);
    }
  }

  lemma {:induction false} CountAppend(changes: seq<Change>, x: Change, c: Category)
    ensures CountOf(changes + [x], c) == CountOf(changes, c) + (if x.category == c then 1 else 0)
  {
    if changes == [] {
      assert changes + [x] == [x];
    } else {
      CountAppend(changes[1..], x, c);
      assert (changes + [x])[1..] == changes[1..] + [x];
    }
  }

  // ---- The diff is a patch --------------------------------------------------------------------

  /** What the diff tracks of an object. */
  datatype View = View(state: Option<int>, inDowntime: bool, acknowledged: bool)

  function ViewOf(states: States, k: Key): View {
    var rec := RecOf(states, k);
    View(rec.state, rec.inDowntime, rec.acknowledged)
  }

  function Take<T>(m: Move<T>, current: T): T {
    if m.Moved? then m.to else current
  }

  /** The listed changes applied, in order, to what is known of object `k`. */
  ghost function Patch(v: View, k: Key, changes: seq<Change>): View
    decreases |changes|
  {
    if changes == [] then v
    else
      var c := changes[0];
      Patch(if c.key == k then View(Take(c.state, v.state), Take(c.downtime, v.inDowntime), Take(c.ack, v.acknowledged))
            else v, k, changes[1..])
  }

  lemma {:induction false} ChangesOverKeys(keys: seq<Key>, before: States, after: States)
    ensures forall c :: c in DiffOver(keys, before, after) ==>
      && c.key in keys && Differs(RecOf(before, c.key), RecOf(after, c.key))
      && c == ChangeOf(c.key, RecOf(before, c.key), RecOf(after, c.key))
    ensures forall k :: k in keys && Differs(RecOf(before, k), RecOf(after, k)) ==>
      ChangeOf(k, RecOf(before, k), RecOf(after, k)) in DiffOver(keys, before, after)
  {
    if keys == [] {
    } else {
      ChangesOverKeys(keys[1..], before, after);
      assert keys == [keys[0]] + keys[1..];
    }
  }

  lemma {:induction false} PatchElsewhere(v: View, k: Key, changes: seq<Change>)
    requires forall c :: c in changes ==> c.key != k
    ensures Patch(v, k, changes) == v
    decreases |changes|
  {
    if changes == [] {
    } else {
      assert changes[0] in changes;
      PatchElsewhere(v, k, changes[1..]);
    }
  }

  lemma {:induction false} PatchOverKeys(keys: seq<Key>, before: States, after: States, k: Key)
    requires forall i, j :: 0 <= i < j < |keys| ==> keys[i] != keys[j]
    ensures Patch(ViewOf(before, k), k, DiffOver(keys, before, after)) ==
      if k in keys then ViewOf(after, k) else ViewOf(before, k)
  {
    if keys == [] {
    } else {
      var rest := DiffOver(keys[1..], before, after);
      ChangesOverKeys(keys[1..], before, after);
      assert keys == [keys[0]] + keys[1..];
      if keys[0] == k {
        PatchElsewhere(ViewOf(after, k), k, rest);
        PatchElsewhere(ViewOf(before, k), k, rest);
        var b, a := RecOf(before, k), RecOf(after, k);
        assert Differs(b, a) ==> DiffOver(keys, before, after)[1..] == rest;
        assert !Differs(b, a) ==> DiffOver(keys, before, after) == rest;
      } else {
        PatchOverKeys(keys[1..], before, after, k);
        var b, a := RecOf(before, keys[0]), RecOf(after, keys[0]);
        assert Differs(b, a) ==> DiffOver(keys, before, after)[1..] == rest;
        assert !Differs(b, a) ==> DiffOver(keys, before, after) == rest;
      }
    }
  }

  /** Applying the listed changes to the earlier state of any object gives its later state. */
  lemma DiffIsPatch(before: States, after: States, k: Key)
    ensures Patch(ViewOf(before, k), k, Diff(before, after)) == ViewOf(after, k)
  {
    PairsAreTotallyOrdered();
    PatchOverKeys(KeysOf(before, after), before, after, k);
  }

  /** Exactly the objects that differ are listed, each with its own change. */
  lemma ListedExactly(before: States, after: States, k: Key)
    ensures (exists c :: c in Diff(before, after) && c.key == k) <==> ViewOf(before, k) != ViewOf(after, k)
    ensures forall c :: c in Diff(before, after) && c.key == k ==>
      c == ChangeOf(k, RecOf(before, k), RecOf(after, k))
  {
    PairsAreTotallyOrdered();
    var keys := KeysOf(before, after);
    ChangesOverKeys(keys, before, after);
    if Differs(RecOf(before, k), RecOf(after, k)) {
      assert k in keys;
    }
  }

  /** No change is listed exactly when the two states agree on every object. */
  lemma EmptyExactly(before: States, after: States)
    ensures Diff(before, after) == [] <==> forall k :: ViewOf(before, k) == ViewOf(after, k)
  {
    forall k ensures (exists c :: c in Diff(before, after) && c.key == k) <==> ViewOf(before, k) != ViewOf(after, k) {
      ListedExactly(before, after, k);
    }
    var changes := Diff(before, after);
    if changes != [] {
      assert changes[0] in changes;
      assert ViewOf(before, changes[0].key) != ViewOf(after, changes[0].key);
    }
  }

  lemma {:induction false} CategoriesSumUp(changes: seq<Change>)
    ensures CountOf(changes, NewProblem) + CountOf(changes, Recovered) + CountOf(changes, StateChanged)
          + CountOf(changes, DowntimeChanged) + CountOf(changes, AckChanged) == |changes|
  {
    if changes == [] {
    } else {
      CategoriesSumUp(changes[1..]);
    }
  }

  // ---- The other way round --------------------------------------------------------------------

  function SwapCategory(c: Category): Category {
    match c
    case NewProblem => Recovered
    case Recovered => NewProblem
    case other => other
  }

  function SwapMove<T>(m: Move<T>): Move<T> {
    if m.Moved? then Moved(m.to, m.from) else Same
  }

  function SwapAll(changes: seq<Change>): seq<Change> {
    if changes == [] then [] else [Swap(changes[0])] + SwapAll(changes[1..])
  }

  function Swap(c: Change): Change {
    Change(c.key, SwapCategory(c.category), SwapMove(c.state), SwapMove(c.downtime), SwapMove(c.ack))
  }

  lemma SwapOne(k: Key, b: Rec, a: Rec)
    ensures Differs(b, a) <==> Differs(a, b)
    ensures Differs(b, a) ==> ChangeOf(k, a, b) == Swap(ChangeOf(k, b, a))
  {
  }

  lemma SwapFirst(c: Change, rest: seq<Change>)
    ensures SwapAll([c] + rest) == [Swap(c)] + SwapAll(rest)
  {
    assert ([c] + rest)[1..] == rest;
  }

  lemma {:induction false} SwapOverKeys(keys: seq<Key>, before: States, after: States)
    ensures DiffOver(keys, after, before) == SwapAll(DiffOver(keys, before, after))
  {
    if keys == [] {
    } else {
      SwapOverKeys(keys[1..], before, after);
      var rest := DiffOver(keys[1..], before, after);
      var b, a := RecOf(before, keys[0]), RecOf(after, keys[0]);
      SwapOne(keys[0], b, a);
      if Differs(b, a) {
        SwapFirst(ChangeOf(keys[0], b, a), rest);
      } else {
        assert DiffOver(keys, before, after) == rest;
      }
    }
  }

  /** Swapping the snapshots swaps every from and to, and exchanges new problems and recoveries. */
  lemma SwapReverses(before: States, after: States)
    ensures Diff(after, before) == SwapAll(Diff(before, after))
  {
    assert before.Keys + after.Keys == after.Keys + before.Keys;
    SwapOverKeys(KeysOf(before, after), before, after);
  }

  /** `a` comes before `b`: by the name of the host, then by that of the service. */
  predicate ComesBefore(a: Key, b: Key) {
    (StrLe(a.0, b.0) && a.0 != b.0) || (a.0 == b.0 && StrLe(a.1, b.1) && a.1 != b.1)
  }

  lemma {:induction false} ChangesOfKeys(keys: seq<Key>, before: States, after: States, i: nat, j: nat)
    requires i < j < |DiffOver(keys, before, after)| && Ascending(keys, PairLe)
    ensures ComesBefore(DiffOver(keys, before, after)[i].key, DiffOver(keys, before, after)[j].key)
  {
    var rest := DiffOver(keys[1..], before, after);
    forall x, y | 0 <= x < y < |keys| - 1 ensures PairLe(keys[1..][x], keys[1..][y]) && keys[1..][x] != keys[1..][y] {
      assert keys[1..][x] == keys[x + 1] && keys[1..][y] == keys[y + 1];
    }
    if Differs(RecOf(before, keys[0]), RecOf(after, keys[0])) {
      if i == 0 {
        var l := ChangedKey(keys[1..], before, after, j - 1);
        assert PairLe(keys[0], keys[l + 1]) && keys[0] != keys[l + 1];
      } else {
        ChangesOfKeys(keys[1..], before, after, i - 1, j - 1);
      }
    } else {
      ChangesOfKeys(keys[1..], before, after, i, j);
    }
  }

  lemma {:induction false} ChangedKey(keys: seq<Key>, before: States, after: States, i: nat) returns (l: nat)
    requires i < |DiffOver(keys, before, after)|
    ensures l < |keys| && DiffOver(keys, before, after)[i].key == keys[l]
  {
    if Differs(RecOf(before, keys[0]), RecOf(after, keys[0])) {
      if i == 0 {
        l := 0;
      } else {
        var k := ChangedKey(keys[1..], before, after, i - 1);
        l := k + 1;
      }
    } else {
      var k := ChangedKey(keys[1..], before, after, i);
      l := k + 1;
    }
  }

  /** The changes are listed host by host and, for a host, service by service, in the order of their names. */
  lemma ChangesInOrder(before: States, after: States, i: nat, j: nat)
    requires i < j < |Diff(before, after)|
    ensures ComesBefore(Diff(before, after)[i].key, Diff(before, after)[j].key)
  {
    PairsAreTotallyOrdered();
    ChangesOfKeys(KeysOf(before, after), before, after, i, j);
  }

  /** What each category covers, a problem being a state above 0. `state_changed` is any move between two problem
      states or between two states that are no problem, a first sighting of an OK object included. */
  lemma CategoriesExactly(before: States, after: States, c: Change)
    requires c in Diff(before, after)
    ensures var b, a := RecOf(before, c.key), RecOf(after, c.key);
      var was, now := b.state.Some? && b.state.value > 0, a.state.Some? && a.state.value > 0;
      && (c.category == StateChanged <==> b.state != a.state && (was <==> now))
      && (c.category == NewProblem <==> !was && now)
      && (c.category == Recovered <==> was && !now)
      && (c.category == DowntimeChanged <==> b.state == a.state && b.inDowntime != a.inDowntime)
      && (c.category == AckChanged <==>
            b.state == a.state && b.inDowntime == a.inDowntime && b.acknowledged != a.acknowledged)
  {
    ListedExactly(before, after, c.key);
  }

  /** Between two instants, only objects with a log row in between can be listed. */
  lemma OnlyLoggedObjectsMove(rows: seq<Row>, t1: int, t2: int, c: Change)
    requires t1 <= t2
    requires c in Diff(StatesAt(rows, t1), StatesAt(rows, t2))
    ensures exists r :: r in rows && r.item.key == c.key && t1 < r.time <= t2
  {
    var before, after := StatesAt(rows, t1), StatesAt(rows, t2);
    ListedExactly(before, after, c.key);
    ReplayIsCompositional(rows, t1, t2);
    var later := SortByTime(Keep(rows, Between(t1, t2)));
    ReplayPerObject(before, later, c.key);
    var own := Keep(later, Own(c.key));
    assert own != [];
    KeepMembers(later, Own(c.key));
    assert own[0] in own;
    SortIsOrdered(Keep(rows, Between(t1, t2)));
    SameRows(later, Keep(rows, Between(t1, t2)));
    KeepMembers(rows, Between(t1, t2));
  }
}
