/**
 * The listing half of `songs_root` in songs/views.py: one page of the song
 * list, with the page window computed as `start = (page - 1) * page_size`,
 * `end = start + page_size`, and the page count as
 * `(count + page_size - 1) // page_size`. The list comes in the order the
 * database returns it (Song.Meta orders by descending id).
 */
module Pagination {
  import opened Results

  const DefaultPage: int := 1
  const DefaultPageSize: int := 10

  /** A negative slice bound, which Django's queryset slicing refuses, or a
      page size of zero, which makes the page count divide by zero. */
  datatype ListError = NegativeSlice | ZeroPageSize

  /** The listing response: total count, the page asked for, the page size,
      the page count and the songs of the page. */
  datatype Listing<T> = Listing(count: nat, page: int, pageSize: int, totalPages: int, results: seq<T>)

  function Min(a: int, b: int): int {
    if a < b then a else b
  }

  function Max(a: int, b: int): int {
    if a < b then b else a
  }

  /** Python's `a // b`: the quotient rounded toward negative infinity. */
  function FloorDiv(a: int, b: int): (q: int)
    requires b != 0
    ensures b > 0 ==> q * b <= a < q * b + b
    ensures b < 0 ==> q * b + b < a <= q * b
  {
    if b > 0 then a / b else (-a) / (-b)
  }

  /** `queryset[start:end]`: refused when a bound is negative, otherwise the
      items whose index lies in [start, end), clipped to the list. */
  function SliceQuerySet<T>(items: seq<T>, start: int, end: int): (r: Result<seq<T>, ListError>)
    ensures r.Success? <==> start >= 0 && end >= 0
    ensures r.Success? ==> |r.value| == Max(0, Min(end, |items|) - start)
    ensures r.Success? ==> forall k :: 0 <= k < |r.value| ==> r.value[k] == items[start + k]
  {
    if start < 0 || end < 0 then Failure(NegativeSlice)
    else if start >= end || start >= |items| then Success([])
    else Success(items[start .. Min(end, |items|)])
  }

  lemma SignOfProduct(a: int, b: int)
    ensures b > 0 ==> (a * b >= 0 <==> a >= 0)
    ensures b < 0 ==> (a * b >= 0 <==> a <= 0)
  {
    if b > 0 && a < 0 {
      assert a * b <= -b;
    }
    if b < 0 && a > 0 {
      assert a * b <= b;
    }
  }

  /** One page of the song list. A page is served exactly when the page size
      is positive and the page is at least 1, or (a quirk of the arithmetic)
      when both the page size and the page are non-positive; a page size of
      zero always fails. */
  function ListSongs<T>(items: seq<T>, page: int, pageSize: int): (r: Result<Listing<T>, ListError>)
    ensures r.Success? <==> (pageSize >= 1 && page >= 1) || (pageSize < 0 && page <= 0)
    ensures r == Failure(ZeroPageSize) <==> pageSize == 0
    ensures r.Success? ==>
      && r.value.count == |items|
      && r.value.page == page && r.value.pageSize == pageSize
      && r.value.totalPages == FloorDiv(|items| + pageSize - 1, pageSize)
  {
    var start := (page - 1) * pageSize;
    var end := start + pageSize;
    SignOfProduct(page - 1, pageSize);
    SignOfProduct(page, pageSize);
    assert end == page * pageSize;
    match SliceQuerySet(items, start, end)
    case Failure(e) => Failure(e)
    case Success(window) =>
      if pageSize == 0 then Failure(ZeroPageSize)
      else Success(Listing(|items|, page, pageSize, FloorDiv(|items| + pageSize - 1, pageSize), window))
  }

  /** The GET request: `page` defaults to 1 and `page_size` to 10, so a bare
      request lists the first ten songs. */
  function SongsRootGet<T>(items: seq<T>, page: Option<int>, pageSize: Option<int>): (r: Result<Listing<T>, ListError>)
    ensures page.None? && pageSize.None? ==>
      r.Success? && r.value.results == items[..Min(10, |items|)]
  {
    var p := page.GetOr(DefaultPage);
    var ps := pageSize.GetOr(DefaultPageSize);
    PageWindow(items, DefaultPage, DefaultPageSize);
    ListSongs(items, p, ps)
  }

  // ---------------------------------------------------------------------
  // Properties of the pagination
  // ---------------------------------------------------------------------

  /** The page holds the items from `(page - 1) * page_size` on, at most
      `page_size` of them, clipped to the list. */
  lemma PageWindow<T>(items: seq<T>, page: int, pageSize: int)
    requires pageSize >= 1 && page >= 1
    ensures ListSongs(items, page, pageSize).Success?
    ensures var start := (page - 1) * pageSize;
            var results := ListSongs(items, page, pageSize).value.results;
            && |results| <= pageSize
            && (start >= |items| ==> results == [])
            && (start < |items| ==> results == items[start .. Min(start + pageSize, |items|)])
  {
    var start := (page - 1) * pageSize;
    SignOfProduct(page - 1, pageSize);
    var results := ListSongs(items, page, pageSize).value.results;
    if start < |items| {
      assert results == items[start .. Min(start + pageSize, |items|)];
    }
  }

  /** With a positive page size the page count is the ceiling of
      count / page_size: zero for an empty list, otherwise the least number
      of pages that holds every song. */
  lemma TotalPagesIsCeiling(count: nat, pageSize: int)
    requires pageSize >= 1
    ensures var t := FloorDiv(count + pageSize - 1, pageSize);
            && t >= 0
            && (t == 0 <==> count == 0)
            && (t - 1) * pageSize < count <= t * pageSize
  {
    var t := FloorDiv(count + pageSize - 1, pageSize);
    assert t * pageSize <= count + pageSize - 1 < t * pageSize + pageSize;
    SignOfProduct(t, pageSize);
    if count > 0 {
      assert t * pageSize > 0;
      SignOfProduct(-t, pageSize);
    }
  }

  /** A page past the last one is empty. */
  lemma PageBeyondLastIsEmpty<T>(items: seq<T>, page: int, pageSize: int)
    requires pageSize >= 1
    requires page > FloorDiv(|items| + pageSize - 1, pageSize)
    ensures ListSongs(items, page, pageSize).Success?
    ensures ListSongs(items, page, pageSize).value.results == []
  {
    var t := FloorDiv(|items| + pageSize - 1, pageSize);
    TotalPagesIsCeiling(|items|, pageSize);
    PageWindow(items, page, pageSize);
    assert (page - 1) * pageSize >= t * pageSize by {
      SignOfProduct(page - 1 - t, pageSize);
    }
  }

  /** The results of pages 1 to k, one after another. */
  function PagesUpTo<T>(items: seq<T>, pageSize: int, k: nat): seq<T>
    requires pageSize >= 1
  {
    if k == 0 then []
    else
      PageWindow(items, k, pageSize);
      PagesUpTo(items, pageSize, k - 1) + ListSongs(items, k, pageSize).value.results
  }

  /** Pages 1 to k together are exactly the first k * page_size items (or
      the whole list when it is shorter), in order and without repetition. */
  lemma {:induction false} PagesUpToIsPrefix<T>(items: seq<T>, pageSize: int, k: nat)
    requires pageSize >= 1
    ensures PagesUpTo(items, pageSize, k) == items[..Min(k * pageSize, |items|)]
  {
    if k > 0 {
      PagesUpToIsPrefix(items, pageSize, k - 1);
      PageWindow(items, k, pageSize);
      var start := (k - 1) * pageSize;
      assert start + pageSize == k * pageSize;
      if start < |items| {
        assert items[..start] + items[start .. Min(k * pageSize, |items|)] == items[..Min(k * pageSize, |items|)];
      } else {
        assert k * pageSize >= |items|;
      }
    }
  }

  /** Reading every page from the first to the last reproduces the whole
      list in order. */
  lemma AllPagesReproduceList<T>(items: seq<T>, pageSize: int)
    requires pageSize >= 1
    ensures PagesUpTo(items, pageSize, Max(0, FloorDiv(|items| + pageSize - 1, pageSize))) == items
  {
    var t := FloorDiv(|items| + pageSize - 1, pageSize);
    TotalPagesIsCeiling(|items|, pageSize);
    PagesUpToIsPrefix(items, pageSize, t);
    assert items[..|items|] == items;
  }

  /** A negative page size with a page of 0 or less yields an empty page and
      a page count computed with floor division. */
  lemma NegativePageSizeListsNothing<T>(items: seq<T>, page: int, pageSize: int)
    requires pageSize < 0 && page <= 0
    ensures ListSongs(items, page, pageSize).Success?
    ensures ListSongs(items, page, pageSize).value.results == []
  {
    SignOfProduct(page - 1, pageSize);
    SignOfProduct(page, pageSize);
    assert (page - 1) * pageSize > page * pageSize;
  }
}
