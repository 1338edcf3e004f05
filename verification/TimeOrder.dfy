/** Sorting by time, the way Python's stable `sort(key=time)` does it. */
module TimeOrder {

  datatype Timed<T> = Timed(time: int, item: T)

  /** Each row is no later than the next. */
  ghost predicate InTimeOrder<T>(s: seq<Timed<T>>) {
    |s| <= 1 || (s[0].time <= s[1].time && InTimeOrder(s[1..]))
  }

  /** Puts `x` in front of everything that is not earlier than it. */
  function InsertByTime<T>(x: Timed<T>, s: seq<Timed<T>>): seq<Timed<T>> {
    if s == [] || x.time <= s[0].time then [x] + s
    else [s[0]] + InsertByTime(x, s[1..])
  }

  /** Insertion sort; a row is inserted before the later rows of the same time, so ties keep their order. */
  function SortByTime<T>(s: seq<Timed<T>>): seq<Timed<T>> {
    if s == [] then [] else InsertByTime(s[0], SortByTime(s[1..]))
  }

  /** `[x for x in s if p(x)]`. */
  function Keep<T>(s: seq<Timed<T>>, p: Timed<T> -> bool): seq<Timed<T>> {
    if s == [] then []
    else if p(s[0]) then [s[0]] + Keep(s[1..], p)
    else Keep(s[1..], p)
  }

  lemma {:induction false} FirstIsEarliest<T>(s: seq<Timed<T>>, i: int)
    requires InTimeOrder(s) && 0 <= i < |s|
    ensures s[0].time <= s[i].time
  {
    if i == 0 {
    } else {
      FirstIsEarliest(s[1..], i - 1);
    }
  }

  lemma {:induction false} EarlierIsNoLater<T>(s: seq<Timed<T>>, i: int, j: int)
    requires InTimeOrder(s) && 0 <= i <= j < |s|
    ensures s[i].time <= s[j].time
  {
    if i > 0 {
      EarlierIsNoLater(s[1..], i - 1, j - 1);
    } else {
      FirstIsEarliest(s, j);
    }
  }

  lemma AllPairsInOrder<T>(s: seq<Timed<T>>)
    requires InTimeOrder(s)
    ensures forall i, j :: 0 <= i <= j < |s| ==> s[i].time <= s[j].time
  {
    forall i, j | 0 <= i <= j < |s| ensures s[i].time <= s[j].time {
      EarlierIsNoLater(s, i, j);
    }
  }

  lemma {:induction false} InsertIsOrdered<T>(x: Timed<T>, s: seq<Timed<T>>)
    requires InTimeOrder(s)
    ensures InTimeOrder(InsertByTime(x, s))
  {
    if s != [] && s[0].time < x.time {
      InsertIsOrdered(x, s[1..]);
      assert InsertByTime(x, s)[1..] == InsertByTime(x, s[1..]);
    } else {
      assert ([x] + s)[1..] == s;
    }
  }

  lemma {:induction false} InsertAdds<T>(x: Timed<T>, s: seq<Timed<T>>)
    ensures multiset(InsertByTime(x, s)) == multiset(s) + multiset{x}
  {
    if s != [] && s[0].time < x.time {
      assert s == [s[0]] + s[1..];
      InsertAdds(x, s[1..]);
    }
  }

  /** The result is in time order and has the same rows. */
  lemma {:induction false} SortIsOrdered<T>(s: seq<Timed<T>>)
    ensures InTimeOrder(SortByTime(s))
    ensures multiset(SortByTime(s)) == multiset(s)
  {
    if s == [] {
    } else {
      assert s == [s[0]] + s[1..];
      SortIsOrdered(s[1..]);
      InsertIsOrdered(s[0], SortByTime(s[1..]));
      InsertAdds(s[0], SortByTime(s[1..]));
    }
  }

  lemma {:induction false} KeepMembers<T(!new)>(s: seq<Timed<T>>, p: Timed<T> -> bool)
    ensures forall x :: x in Keep(s, p) <==> x in s && p(x)
  {
    if s == [] {
    } else {
      KeepMembers(s[1..], p);
      assert s == [s[0]] + s[1..];
    }
  }

  lemma KeepStep<T>(x: Timed<T>, s: seq<Timed<T>>, p: Timed<T> -> bool)
    ensures Keep([x] + s, p) == if p(x) then [x] + Keep(s, p) else Keep(s, p)
  {
    assert ([x] + s)[1..] == s;
  }

  /** Selecting twice is selecting once by both conditions. */
  lemma {:induction false} KeepTwice<T(!new)>(s: seq<Timed<T>>, p: Timed<T> -> bool, q: Timed<T> -> bool,
                                              both: Timed<T> -> bool)
    requires forall x :: both(x) <==> p(x) && q(x)
    ensures Keep(Keep(s, p), q) == Keep(s, both)
  {
    if s == [] {
    } else {
      KeepTwice(s[1..], p, q, both);
      KeepStep(s[0], Keep(s[1..], p), q);
    }
  }

  lemma InsertStep<T>(x: Timed<T>, first: Timed<T>, s: seq<Timed<T>>)
    ensures InsertByTime(x, [first] + s) ==
      if x.time <= first.time then [x] + ([first] + s) else [first] + InsertByTime(x, s)
  {
    assert ([first] + s)[1..] == s;
  }

  lemma SortStep<T>(x: Timed<T>, s: seq<Timed<T>>)
    ensures SortByTime([x] + s) == InsertByTime(x, SortByTime(s))
  {
    assert ([x] + s)[1..] == s;
  }

  /** What is kept of a list with nothing earlier than `x` takes `x` in front. */
  lemma InsertInFront<T(!new)>(x: Timed<T>, s: seq<Timed<T>>, p: Timed<T> -> bool)
    requires InTimeOrder(s) && (s == [] || x.time <= s[0].time)
    ensures InsertByTime(x, Keep(s, p)) == [x] + Keep(s, p)
  {
    var kept := Keep(s, p);
    if kept != [] {
      KeepMembers(s, p);
      assert kept[0] in kept;
      var i :| 0 <= i < |s| && s[i] == kept[0];
      FirstIsEarliest(s, i);
    }
  }

  lemma {:induction false} InsertKeeps<T(!new)>(x: Timed<T>, s: seq<Timed<T>>, p: Timed<T> -> bool)
    requires InTimeOrder(s)
    ensures Keep(InsertByTime(x, s), p) ==
      if p(x) then InsertByTime(x, Keep(s, p)) else Keep(s, p)
  {
    if s == [] || x.time <= s[0].time {
      KeepStep(x, s, p);
      InsertInFront(x, s, p);
    } else {
      InsertKeeps(x, s[1..], p);
      KeepStep(s[0], InsertByTime(x, s[1..]), p);
      InsertStep(x, s[0], Keep(s[1..], p));
    }
  }

  /** Selecting and sorting commute: this is where stability matters. */
  lemma {:induction false} SortKeeps<T(!new)>(s: seq<Timed<T>>, p: Timed<T> -> bool)
    ensures Keep(SortByTime(s), p) == SortByTime(Keep(s, p))
  {
    if s == [] {
    } else {
      SortKeeps(s[1..], p);
      SortIsOrdered(s[1..]);
      InsertKeeps(s[0], SortByTime(s[1..]), p);
      SortStep(s[0], Keep(s[1..], p));
    }
  }

  /** A list already in time order is left as it is. */
  lemma {:induction false} SortedStays<T>(s: seq<Timed<T>>)
    requires InTimeOrder(s)
    ensures SortByTime(s) == s
  {
    if s == [] {
    } else {
      SortedStays(s[1..]);
    }
  }

  /** A list in time order is its part up to `t` followed by its part after `t`. */
  lemma {:induction false} SplitAt<T(!new)>(s: seq<Timed<T>>, t: int)
    requires InTimeOrder(s)
    ensures s == Keep(s, (x: Timed<T>) => x.time <= t) + Keep(s, (x: Timed<T>) => x.time > t)
    ensures s != [] && s[0].time > t ==> Keep(s, (x: Timed<T>) => x.time <= t) == []
  {
    if s == [] {
    } else {
      SplitAt(s[1..], t);
    }
  }

  /** Sorting can be done in two steps, up to `t` and after `t`. */
  lemma SortSplitsAt<T(!new)>(s: seq<Timed<T>>, t: int)
    ensures SortByTime(s) ==
      SortByTime(Keep(s, (x: Timed<T>) => x.time <= t)) + SortByTime(Keep(s, (x: Timed<T>) => x.time > t))
  {
    SortIsOrdered(s);
    SplitAt(SortByTime(s), t);
    SortKeeps(s, (x: Timed<T>) => x.time <= t);
    SortKeeps(s, (x: Timed<T>) => x.time > t);
  }

  lemma {:induction false} SameTimeInOrder<T(!new)>(s: seq<Timed<T>>, t: int)
    ensures InTimeOrder(Keep(s, (x: Timed<T>) => x.time == t))
  {
    var p := (x: Timed<T>) => x.time == t;
    if s == [] {
    } else {
      SameTimeInOrder(s[1..], t);
      KeepMembers(s[1..], p);
      var kept := Keep(s[1..], p);
      assert kept == [] || kept[0] in kept;
      assert ([s[0]] + kept)[1..] == kept;
    }
  }

  /** Rows of equal time stay in the order they came in. */
  lemma SortIsStable<T(!new)>(s: seq<Timed<T>>, t: int)
    ensures Keep(SortByTime(s), (x: Timed<T>) => x.time == t) == Keep(s, (x: Timed<T>) => x.time == t)
  {
    SortKeeps(s, (x: Timed<T>) => x.time == t);
    SameTimeInOrder(s, t);
    SortedStays(Keep(s, (x: Timed<T>) => x.time == t));
  }
}
