/** Total orders: how names are compared and sorted.

    Python compares strings code point by code point and tuples component by
    component; `sorted(...)` over a set of names is the ascending list of its
    members. */
module Order {

  /** Lexicographic comparison of two strings by code point. */
  predicate StrLe(a: string, b: string) {
    a == [] || (b != [] && (a[0] < b[0] || (a[0] == b[0] && StrLe(a[1..], b[1..]))))
  }

  /** Comparison of two pairs of strings, first component first. */
  predicate PairLe(p: (string, string), q: (string, string)) {
    if p.0 == q.0 then StrLe(p.1, q.1) else StrLe(p.0, q.0)
  }

  ghost predicate TotalOrder<T(!new)>(le: (T, T) -> bool) {
    && (forall x :: le(x, x))
    && (forall x, y :: le(x, y) || le(y, x))
    && (forall x, y :: le(x, y) && le(y, x) ==> x == y)
    && (forall x, y, z :: le(x, y) && le(y, z) ==> le(x, z))
  }

  lemma {:induction false} StrLeAntisymmetric(a: string, b: string)
    requires StrLe(a, b) && StrLe(b, a)
    ensures a == b
  {
    if a == [] {
    } else {
      StrLeAntisymmetric(a[1..], b[1..]);
      assert a == [a[0]] + a[1..] && b == [b[0]] + b[1..];
    }
  }

  lemma {:induction false} StrLeTransitive(a: string, b: string, c: string)
    requires StrLe(a, b) && StrLe(b, c)
    ensures StrLe(a, c)
  {
    if a == [] || !(a[0] == b[0] == c[0]) {
    } else {
      StrLeTransitive(a[1..], b[1..], c[1..]);
    }
  }

  lemma {:induction false} StrLeTotal(a: string, b: string)
    ensures StrLe(a, b) || StrLe(b, a)
  {
    if a == [] || b == [] || a[0] != b[0] {
    } else {
      StrLeTotal(a[1..], b[1..]);
    }
  }

  /** Two names share their first `i` characters and then part, the first one lower; or the first one ends there. */
  predicate PartsAt(a: string, b: string, i: nat) {
    i <= |a| && i <= |b| && a[..i] == b[..i] && (i == |a| || (i < |b| && a[i] < b[i]))
  }

  lemma HeadsAgree(a: string, b: string, i: nat)
    requires i <= |a| && i <= |b| && a[..i] == b[..i]
    ensures i > 0 ==> a[0] == b[0]
  {
    if i > 0 {
      assert a[0] == a[..i][0] && b[0] == b[..i][0];
    }
  }

  /** That is what the order is. */
  lemma {:induction false} StrLeExactly(a: string, b: string)
    ensures StrLe(a, b) <==> exists i: nat :: PartsAt(a, b, i)
  {
    if a == [] {
      assert PartsAt(a, b, 0);
    } else if b == [] {
    } else if a[0] != b[0] {
      if a[0] < b[0] {
        assert PartsAt(a, b, 0);
      }
      forall i: nat | PartsAt(a, b, i) ensures i == 0 {
        HeadsAgree(a, b, i);
      }
    } else {
      StrLeExactly(a[1..], b[1..]);
      if i: nat :| PartsAt(a[1..], b[1..], i) {
        assert a[..i + 1] == [a[0]] + a[1..][..i] && b[..i + 1] == [b[0]] + b[1..][..i];
        assert PartsAt(a, b, i + 1);
      }
      if i: nat :| PartsAt(a, b, i) {
        assert i > 0;
        assert a[1..][..i - 1] == a[..i][1..] && b[1..][..i - 1] == b[..i][1..];
        assert PartsAt(a[1..], b[1..], i - 1);
      }
    }
  }

  lemma NamesAreTotallyOrdered()
    ensures TotalOrder(StrLe)
  {
    forall x, y ensures StrLe(x, y) || StrLe(y, x) { StrLeTotal(x, y); }
    forall x ensures StrLe(x, x) { StrLeTotal(x, x); }
    forall x, y | StrLe(x, y) && StrLe(y, x) ensures x == y { StrLeAntisymmetric(x, y); }
    forall x, y, z | StrLe(x, y) && StrLe(y, z) ensures StrLe(x, z) { StrLeTransitive(x, y, z); }
  }

  lemma PairsAreTotallyOrdered()
    ensures TotalOrder(PairLe)
  {
    NamesAreTotallyOrdered();
    forall p: (string, string), q: (string, string), r: (string, string) | PairLe(p, q) && PairLe(q, r)
      ensures PairLe(p, r)
    {
      assert StrLe(p.0, q.0) && StrLe(q.0, r.0);
      if p.0 == r.0 { assert q.0 == p.0; }
    }
  }

  /** Every non-empty finite set has a least member. */
  lemma {:induction false} LeastExists<T(!new)>(s: set<T>, le: (T, T) -> bool)
    requires s != {} && TotalOrder(le)
    ensures exists m :: m in s && forall x :: x in s ==> le(m, x)
    decreases |s|
  {
    var a :| a in s;
    var rest := s - {a};
    if rest == {} {
      assert s == {a};
      assert forall x :: x in s ==> le(a, x);
    } else {
      LeastExists(rest, le);
      var m :| m in rest && forall x :: x in rest ==> le(m, x);
      var least := if le(a, m) then a else m;
      assert forall x :: x in s ==> x == a || x in rest;
      assert least in s && forall x :: x in s ==> le(least, x);
    }
  }

  /** `sorted(s)[0]`. */
  ghost function Least<T(!new)>(s: set<T>, le: (T, T) -> bool): (m: T)
    requires s != {} && TotalOrder(le)
    ensures m in s && forall x :: x in s ==> le(m, x)
  {
    LeastExists(s, le);
    var m :| m in s && forall x :: x in s ==> le(m, x);
    m
  }

  ghost predicate Ascending<T(!new)>(xs: seq<T>, le: (T, T) -> bool) {
    forall i, j :: 0 <= i < j < |xs| ==> le(xs[i], xs[j]) && xs[i] != xs[j]
  }

  /** `sorted(s)` for a set: ascending, each member once. */
  ghost function Sorted<T(!new)>(s: set<T>, le: (T, T) -> bool): (xs: seq<T>)
    requires TotalOrder(le)
    ensures Ascending(xs, le)
    ensures forall x :: x in xs <==> x in s
    decreases |s|
  {
    if s == {} then []
    else
      var m := Least(s, le);
      [m] + Sorted(s - {m}, le)
  }

  method SortSet<T(==, !new)>(s: set<T>, le: (T, T) -> bool) returns (xs: seq<T>)
    requires TotalOrder(le)
    ensures xs == Sorted(s, le)
  {
    xs := [];
    var rest := s;
    while rest != {}
      invariant rest <= s
      invariant forall x :: x in xs <==> x in s && x !in rest
      invariant forall x, y :: x in xs && y in rest ==> le(x, y)
      invariant Ascending(xs, le)
      decreases rest
    {
      LeastExists(rest, le);
      var m :| m in rest && forall x | x in rest :: le(m, x);
      xs := xs + [m];
      rest := rest - {m};
    }
    AscendingIsUnique(xs, Sorted(s, le), le);
  }

  /** An ascending list is determined by its members. */
  lemma {:induction false} AscendingIsUnique<T(!new)>(xs: seq<T>, ys: seq<T>, le: (T, T) -> bool)
    requires TotalOrder(le) && Ascending(xs, le) && Ascending(ys, le)
    requires forall x :: x in xs <==> x in ys
    ensures xs == ys
  {
    assert ys == [] || ys[0] in xs;
    assert xs == [] || xs[0] in ys;
    if xs == [] {
    } else {
      var i :| 0 <= i < |ys| && ys[i] == xs[0];
      var j :| 0 <= j < |xs| && xs[j] == ys[0];
      assert xs[0] == ys[0];
      forall x ensures x in xs[1..] <==> x in ys[1..] {
        if x in xs[1..] {
          var k :| 1 <= k < |xs| && xs[k] == x;
          assert x in ys && x != xs[0];
        }
        if x in ys[1..] {
          var k :| 1 <= k < |ys| && ys[k] == x;
          assert x in xs && x != ys[0];
        }
      }
      AscendingIsUnique(xs[1..], ys[1..], le);
    }
  }
}
