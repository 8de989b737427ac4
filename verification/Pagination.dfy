/** Walking a paged list to its end
    (gpustack/cloud_providers/shuihua.py:387-414). */
module Pagination {
  import opened Arithmetic
  import opened Lists

  function Min(a: int, b: int): int { if a < b then a else b }

  /** A fixed list served in pages numbered from 1; beyond the end, nothing. */
  function PageOf<T>(items: seq<T>, page: nat, pageSize: nat): seq<T>
    requires page >= 1 && pageSize >= 1
  {
    var lo := Min((page - 1) * pageSize, |items|);
    assert 0 <= (page - 1) * pageSize && page * pageSize == (page - 1) * pageSize + pageSize;
    items[lo..Min(page * pageSize, |items|)]
  }

  lemma PageBounds<T>(items: seq<T>, page: nat, pageSize: nat)
    requires page >= 1 && pageSize >= 1
    ensures var lo, hi := (page - 1) * pageSize, page * pageSize;
      && lo >= 0 && hi == lo + pageSize
      && |PageOf(items, page, pageSize)| == if hi <= |items| then pageSize else if lo <= |items| then |items| - lo else 0
  {
    assert (page - 1) * pageSize >= 0;
    assert page * pageSize == (page - 1) * pageSize + pageSize;
  }

  /** How far a server that reports `totalPages` lets the walk get: the first
      page is always fetched, and no page after the last one reported. */
  function Reach(length: nat, pageSize: nat, totalPages: Option<int>): nat {
    if totalPages.None? then length
    else Min(length, (if totalPages.value > 1 then totalPages.value else 1) * pageSize)
  }

  /** The iterator, collected: what it yields and how many pages it asks for. */
  method IterVms<T>(items: seq<T>, pageSize: nat, totalPages: Option<int>) returns (yielded: seq<T>, requests: nat)
    requires pageSize >= 1
    ensures yielded == items[..Reach(|items|, pageSize, totalPages)]
    ensures requests <= |items| / pageSize + 1
  {
    var page := 1;
    yielded, requests := [], 0;
    while true
      invariant page >= 1 && requests == page - 1 && 0 <= (page - 1) * pageSize <= |items|
      invariant yielded == items[..(page - 1) * pageSize]
      invariant totalPages.Some? ==> page == 1 || page <= totalPages.value
      decreases |items| - (page - 1) * pageSize
    {
      var pageItems := PageOf(items, page, pageSize);
      requests := requests + 1;
      PageBounds(items, page, pageSize);
      yielded := yielded + pageItems;
      if pageItems == [] || |pageItems| < pageSize || (totalPages.Some? && page >= totalPages.value) {
        StopsInTime(page, pageSize, |items|);
        StopsAtReach(items, page, pageSize, totalPages);
        return;
      }
      page := page + 1;
    }
  }

  lemma StopsInTime(page: nat, pageSize: nat, length: nat)
    requires page >= 1 && pageSize >= 1 && (page - 1) * pageSize <= length
    ensures page <= length / pageSize + 1
  {
    DivMod(length, pageSize);
    if page - 1 > length / pageSize {
      StrictlyMore(page - 1, length / pageSize, pageSize);
      assert false;
    }
  }

  lemma StopsAtReach<T>(items: seq<T>, page: nat, pageSize: nat, totalPages: Option<int>)
    requires page >= 1 && pageSize >= 1 && 0 <= (page - 1) * pageSize <= |items|
    requires totalPages.Some? ==> page == 1 || page <= totalPages.value
    requires |PageOf(items, page, pageSize)| < pageSize || (totalPages.Some? && page >= totalPages.value)
    ensures Reach(|items|, pageSize, totalPages) == Min(page * pageSize, |items|)
  {
    PageBounds(items, page, pageSize);
    if totalPages.Some? {
      var t := if totalPages.value > 1 then totalPages.value else 1;
      if page < t {
        assert t * pageSize == page * pageSize + (t - page) * pageSize;
        assert (t - page) * pageSize >= 0;
      }
    }
  }

  /** Everything is yielded, once and in order, if and only if the reported page
      count is missing or covers the list. */
  lemma CompleteIff(length: nat, pageSize: nat, totalPages: Option<int>)
    requires pageSize >= 1
    ensures Reach(length, pageSize, totalPages) == length <==>
      totalPages.None? || length <= pageSize || length <= totalPages.value * pageSize
  {
    if totalPages.Some? && totalPages.value <= 1 {
      assert totalPages.value * pageSize <= pageSize by {
        assert (1 - totalPages.value) * pageSize >= 0;
        assert (1 - totalPages.value) * pageSize == pageSize - totalPages.value * pageSize;
      }
    } else if totalPages.Some? {
      assert totalPages.value * pageSize == (totalPages.value - 1) * pageSize + pageSize;
      assert (totalPages.value - 1) * pageSize >= 0;
    }
  }
}
