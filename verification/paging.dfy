/**
 * The paginator: slicing an ordered match list into one zero-based page,
 * with the navigation metadata of `PagedList`.
 */
module Paging {
  import opened Nullable
  import opened Exceptions

  /** One page of results and where it sits among all pages. */
  datatype PagedList<T> = PagedList(
    entryList: seq<T>,
    pageIndex: int,
    pageSize: int,
    numberOfPages: int,
    nextPageIndex: Option<int>,
    previousPageIndex: Option<int>,
    firstPage: bool,
    lastPage: bool)

  const NoObjectsMessage := "No objects found for specified criteria"

  function Min(a: int, b: int): int {
    if a <= b then a else b
  }

  /** Kotlin's `map` over a list. */
  function MapEntries<I, O>(s: seq<I>, mapper: I -> O): (r: seq<O>)
    ensures |r| == |s|
    ensures forall i :: 0 <= i < |s| ==> r[i] == mapper(s[i])
  {
    seq(|s|, i requires 0 <= i < |s| => mapper(s[i]))
  }

  /**
   * The number of pages of `pageSize` entries that `n` entries fill: the
   * ceiling of n / pageSize, computed on integers.
   */
  function NumberOfPages(n: nat, pageSize: int): (k: nat)
    requires pageSize > 0
    ensures n <= k * pageSize
    ensures n > 0 ==> (k - 1) * pageSize < n
    ensures k == 0 <==> n == 0
  {
    var k := (n + pageSize - 1) / pageSize;
    assert n + pageSize - 1 == k * pageSize + (n + pageSize - 1) % pageSize;
    assert (k - 1) * pageSize == k * pageSize - pageSize;
    k
  }

  /** A page index below the page count starts inside the match list. */
  lemma PageStartsInside(n: nat, pageSize: int, pageIndex: int)
    requires pageSize > 0 && 0 <= pageIndex < NumberOfPages(n, pageSize)
    ensures 0 <= pageIndex * pageSize < n
  {
    var k := NumberOfPages(n, pageSize);
    assert pageIndex * pageSize <= (k - 1) * pageSize;
  }

  /** A page index at or past the page count starts at or past the end of the match list. */
  lemma PageStartsPastEnd(n: nat, pageSize: int, pageIndex: int)
    requires pageSize > 0 && pageIndex >= NumberOfPages(n, pageSize)
    ensures pageIndex * pageSize >= n
  {
    var k := NumberOfPages(n, pageSize);
    assert pageIndex * pageSize >= k * pageSize;
  }

  /** The last page index is exactly the one whose page reaches the end of the match list. */
  lemma LastPageReachesEnd(n: nat, pageSize: int, pageIndex: int)
    requires pageSize > 0 && 0 <= pageIndex < NumberOfPages(n, pageSize)
    ensures pageIndex == NumberOfPages(n, pageSize) - 1 <==> n <= (pageIndex + 1) * pageSize
  {
    var k := NumberOfPages(n, pageSize);
    if pageIndex < k - 1 {
      assert (pageIndex + 1) * pageSize <= (k - 1) * pageSize;
    } else {
      assert (pageIndex + 1) * pageSize == k * pageSize;
    }
  }

  /**
   * `listToPage`: the page `pageIndex` (zero-based) of `pageSize` entries of
   * `allEntries`, each passed through `mapper`.
   */
  function ListToPage<I, O>(allEntries: seq<I>, pageSize: int, pageIndex: int, mapper: I -> O): (r: Result<PagedList<O>>)
    requires pageSize > 0 && pageIndex >= 0
    ensures allEntries == [] ==> r == Err(NoObjectsFound(NoObjectsMessage))
    ensures allEntries != [] && pageIndex >= NumberOfPages(|allEntries|, pageSize) ==>
      r == Err(PageOutOfBounds(pageIndex, NumberOfPages(|allEntries|, pageSize)))
    ensures r.Ok? <==> pageIndex * pageSize < |allEntries|
    ensures r.Ok? ==>
      && r.value.pageIndex == pageIndex
      && r.value.pageSize == pageSize
      && r.value.numberOfPages == NumberOfPages(|allEntries|, pageSize)
    ensures r.Ok? ==>
      && |r.value.entryList| == Min(pageSize, |allEntries| - pageIndex * pageSize)
      && forall i :: 0 <= i < |r.value.entryList| ==>
           r.value.entryList[i] == mapper(allEntries[pageIndex * pageSize + i])
    ensures r.Ok? ==>
      && (r.value.firstPage <==> pageIndex == 0)
      && (r.value.lastPage <==> pageIndex == r.value.numberOfPages - 1)
      && (r.value.lastPage <==> |allEntries| <= (pageIndex + 1) * pageSize)
      && r.value.nextPageIndex == (if r.value.lastPage then None else Some(pageIndex + 1))
      && r.value.previousPageIndex == (if r.value.firstPage then None else Some(pageIndex - 1))
  {
    var catalogSize := |allEntries|;
    if catalogSize == 0 then
      Err(NoObjectsFound(NoObjectsMessage))
    else
      var numberOfPages := NumberOfPages(catalogSize, pageSize);
      if pageIndex >= numberOfPages then
        PageStartsPastEnd(catalogSize, pageSize, pageIndex);
        Err(PageOutOfBounds(pageIndex, numberOfPages))
      else
        PageStartsInside(catalogSize, pageSize, pageIndex);
        LastPageReachesEnd(catalogSize, pageSize, pageIndex);
        var fromIndex := pageIndex * pageSize;
        var toIndex := fromIndex + pageSize;
        var entries := MapEntries(allEntries[fromIndex..if toIndex >= catalogSize then catalogSize else toIndex], mapper);
        var isFirstPage := pageIndex == 0;
        var isLastPage := pageIndex == numberOfPages - 1;
        assert (pageIndex + 1) * pageSize == toIndex;
        Ok(PagedList(
          entries,
          pageIndex,
          pageSize,
          numberOfPages,
          if !isLastPage then Some(pageIndex + 1) else None,
          if !isFirstPage then Some(pageIndex - 1) else None,
          isFirstPage,
          isLastPage))
  }

  /** The i-th entry of a page is the mapped match at position pageIndex * pageSize + i. */
  lemma PageEntryIsMappedMatch<I, O>(allEntries: seq<I>, pageSize: int, pageIndex: int, mapper: I -> O,
                                     page: PagedList<O>, i: int)
    requires pageSize > 0 && pageIndex >= 0
    requires ListToPage(allEntries, pageSize, pageIndex, mapper) == Ok(page)
    requires 0 <= i < |page.entryList|
    ensures 0 <= pageIndex * pageSize + i < |allEntries|
    ensures page.entryList[i] == mapper(allEntries[pageIndex * pageSize + i])
  {
  }

  /** The pages 0 .. count-1 of `allEntries`, concatenated in index order. */
  function PagesUpTo<I, O>(allEntries: seq<I>, pageSize: int, mapper: I -> O, count: nat): seq<O>
    requires pageSize > 0 && allEntries != []
    requires count <= NumberOfPages(|allEntries|, pageSize)
  {
    if count == 0 then []
    else
      PageStartsInside(|allEntries|, pageSize, count - 1);
      PagesUpTo(allEntries, pageSize, mapper, count - 1) + ListToPage(allEntries, pageSize, count - 1, mapper).value.entryList
  }

  /** The first `count` pages hold exactly the first Min(n, count * pageSize) mapped matches. */
  lemma {:induction false} PagesUpToArePrefix<I, O>(allEntries: seq<I>, pageSize: int, mapper: I -> O, count: nat)
    requires pageSize > 0 && allEntries != []
    requires count <= NumberOfPages(|allEntries|, pageSize)
    ensures PagesUpTo(allEntries, pageSize, mapper, count)
         == MapEntries(allEntries[..Min(|allEntries|, count * pageSize)], mapper)
  {
    if count > 0 {
      var n := |allEntries|;
      var from := (count - 1) * pageSize;
      PageStartsInside(n, pageSize, count - 1);
      PagesUpToArePrefix(allEntries, pageSize, mapper, count - 1);
      assert Min(n, from) == from;
      assert count * pageSize == from + pageSize;
      var before := PagesUpTo(allEntries, pageSize, mapper, count - 1);
      var page := ListToPage(allEntries, pageSize, count - 1, mapper).value.entryList;
      var expected := MapEntries(allEntries[..Min(n, count * pageSize)], mapper);
      assert |before + page| == |expected|;
      forall i | 0 <= i < |expected|
        ensures (before + page)[i] == expected[i]
      {
        if i >= from {
          assert (before + page)[i] == page[i - from];
        }
      }
    }
  }

  /** Concatenating every page in index order rebuilds the whole mapped match list, each entry once. */
  lemma PagesRebuildAllEntries<I, O>(allEntries: seq<I>, pageSize: int, mapper: I -> O)
    requires pageSize > 0 && allEntries != []
    ensures PagesUpTo(allEntries, pageSize, mapper, NumberOfPages(|allEntries|, pageSize))
         == MapEntries(allEntries, mapper)
  {
    var k := NumberOfPages(|allEntries|, pageSize);
    PagesUpToArePrefix(allEntries, pageSize, mapper, k);
    assert allEntries[..|allEntries|] == allEntries;
  }

  /** First and last flags are both set exactly when the matches fit on one page. */
  lemma SinglePageIsFirstAndLast<I, O>(allEntries: seq<I>, pageSize: int, pageIndex: int, mapper: I -> O)
    requires pageSize > 0 && pageIndex >= 0
    requires ListToPage(allEntries, pageSize, pageIndex, mapper).Ok?
    ensures var page := ListToPage(allEntries, pageSize, pageIndex, mapper).value;
      page.firstPage && page.lastPage <==> page.numberOfPages == 1
  {
  }

  /** 100 matches at 24 per page: page 4 is the last one and holds 4 entries. */
  lemma HundredMatchesLastPage<I, O>(allEntries: seq<I>, mapper: I -> O)
    requires |allEntries| == 100
    ensures var r := ListToPage(allEntries, 24, 4, mapper);
      && r.Ok?
      && |r.value.entryList| == 4
      && r.value.numberOfPages == 5
      && r.value.lastPage && !r.value.firstPage
      && r.value.nextPageIndex == None
      && r.value.previousPageIndex == Some(3)
  {
  }

}
