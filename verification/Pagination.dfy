/** The pagination loop (client.py), against a list that does not change while it is read. */
module Pagination {
  import opened Basics

  /** The first `limit` rows. */
  function Take<T>(rows: seq<T>, limit: int): seq<T> {
    if limit <= 0 then [] else rows[..Min(limit, |rows|)]
  }

  /** The rows from `offset` on. */
  function Rest<T>(rows: seq<T>, offset: nat): seq<T> {
    if offset <= |rows| then rows[offset..] else []
  }

  /** The rows from `offset` on, at most `limit`: the server's answer to one request. */
  function Slice<T>(rows: seq<T>, offset: nat, limit: int): seq<T> {
    Take(Rest(rows, offset), limit)
  }

  lemma RestOfRest<T>(rows: seq<T>, offset: nat, n: nat)
    requires n <= |Rest(rows, offset)|
    ensures Rest(rows, offset + n) == Rest(rows, offset)[n..]
  {
  }

  /** One page more: what has been yielded of `rest` grows by what the page adds below the cap. */
  lemma OnePageMore<T>(rest: seq<T>, n: nat, pageSize: nat, taken: nat)
    requires n <= |rest| && taken <= |Take(rest[n..], pageSize)|
    ensures n + taken <= |rest| && rest[..n] + Take(rest[n..], pageSize)[..taken] == rest[..n + taken]
  {
    assert Take(rest[n..], pageSize)[..taken] == rest[n..][..taken];
  }

  /** The rows of one page, up to the cap: `for row in page: yield row`. */
  method YieldPage<T>(before: seq<T>, page: seq<T>, hardLimit: int) returns (yielded: seq<T>)
    requires |before| < hardLimit
    ensures yielded == before + page[..Min(|page|, hardLimit - |before|)]
  {
    yielded := before;
    for i := 0 to |page|
      invariant yielded == before + page[..i] && |yielded| < hardLimit
    {
      yielded := yielded + [page[i]];
      assert yielded == before + page[..i + 1];
      if |yielded| >= hardLimit {
        return;
      }
    }
    assert page[..|page|] == page;
  }

  /** `get_all`: page after page, until a page comes back short or the cap is reached. */
  method GetAll<T>(rows: seq<T>, offset0: nat, pageSize: nat, hardLimit: int) returns (yielded: seq<T>)
    requires pageSize >= 1
    ensures yielded == Slice(rows, offset0, hardLimit)
  {
    ghost var rest := Rest(rows, offset0);
    yielded := [];
    var offset := offset0;
    while |yielded| < hardLimit
      invariant offset == offset0 + |yielded| && |yielded| <= |rest| && yielded == rest[..|yielded|]
      invariant |yielded| <= hardLimit || yielded == []
      decreases hardLimit - |yielded|
    {
      var page := Slice(rows, offset, pageSize);
      ghost var n := |yielded|;
      RestOfRest(rows, offset0, n);
      if page == [] {
        return;
      }
      OnePageMore(rest, n, pageSize, Min(|page|, hardLimit - n));
      yielded := YieldPage(yielded, page, hardLimit);
      if |yielded| >= hardLimit || |page| < pageSize {
        return;
      }
      offset := offset + pageSize;
    }
  }
}
