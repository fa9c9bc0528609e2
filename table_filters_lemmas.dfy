/**
 * What the hook's filtering, sorting and pagination guarantee.
 */
module TableFilterProperties {
  import opened Seqs
  import opened Types
  import opened RowOrder
  import opened TableFilters

  // ---------------------------------------------------------------------------
  // Search and type filters

  /** The search keeps exactly the rows whose lower-cased AWB contains the lower-cased term; an empty term keeps all. */
  lemma SearchMembership(rows: seq<ComparisonRow>, term: string)
    ensures term == "" ==> ApplySearch(rows, term) == rows
    ensures forall r :: r in ApplySearch(rows, term) <==> r in rows && Contains(Lower(r.awb), Lower(term))
  {
    if term == "" {
      forall r | r in rows
        ensures Contains(Lower(r.awb), Lower(term))
      {
        ContainsEmpty(Lower(r.awb));
      }
    }
  }

  /** The search does not depend on the case of the term. */
  lemma SearchIgnoresCase(rows: seq<ComparisonRow>, term: string)
    ensures ApplySearch(rows, term) == ApplySearch(rows, Lower(term))
  {
    LowerIdempotent(term);
    assert term == "" <==> Lower(term) == "";
  }

  /** Each type filter keeps exactly the rows its predicate accepts; `all` keeps every row in place. */
  lemma TypeFilterMembership(rows: seq<ComparisonRow>, filter: FilterType)
    ensures filter == All ==> ApplyFilter(rows, filter) == rows
    ensures forall r :: r in ApplyFilter(rows, filter) <==> r in rows && KeepsRow(filter, r)
  {
  }

  /** The filters keep the relative order of the rows they keep. */
  lemma {:induction false} FiltersPreserveOrder(a: seq<ComparisonRow>, b: seq<ComparisonRow>, term: string, filter: FilterType)
    ensures ApplyFilter(ApplySearch(a + b, term), filter)
         == ApplyFilter(ApplySearch(a, term), filter) + ApplyFilter(ApplySearch(b, term), filter)
  {
    var lowered := Lower(term);
    if term != "" {
      FilterConcat(a, b, SearchPredicate(lowered));
    }
    if filter != All {
      FilterConcat(ApplySearch(a, term), ApplySearch(b, term), FilterPredicate(filter));
    }
  }

  /**
   * `filteredAndSortedRows` holds the rows that pass both filters, each as
   * often as in the input, ordered by the comparator.
   */
  lemma FilteredAndSortedMeaning(rows: seq<ComparisonRow>, term: string, filter: FilterType, field: SortField, dir: SortDirection)
    ensures var out := FilteredAndSorted(rows, term, filter, field, dir);
      && Sorted(out, field, dir)
      && multiset(out) == multiset(ApplyFilter(ApplySearch(rows, term), filter))
      && |out| <= |rows|
      && forall r :: r in out <==> r in rows && Contains(Lower(r.awb), Lower(term)) && KeepsRow(filter, r)
  {
    var kept := ApplyFilter(ApplySearch(rows, term), filter);
    SortSorted(kept, field, dir);
    SearchMembership(rows, term);
    TypeFilterMembership(ApplySearch(rows, term), filter);
    var out := FilteredAndSorted(rows, term, filter, field, dir);
    forall r
      ensures r in out <==> r in kept
    {
      assert r in out <==> r in multiset(out);
      assert r in kept <==> r in multiset(kept);
    }
  }

  // ---------------------------------------------------------------------------
  // Pagination

  /** `totalPages` is the ceiling of `n / pageSize`. */
  lemma TotalPagesIsCeiling(n: nat, pageSize: int)
    requires pageSize > 0
    ensures var t := TotalPages(n, pageSize);
      t * pageSize >= n && (n > 0 ==> (t - 1) * pageSize < n) && (t == 0 <==> n == 0)
  {
    var t := TotalPages(n, pageSize);
    var r := (n + pageSize - 1) % pageSize;
    assert n + pageSize - 1 == t * pageSize + r;
    assert (t - 1) * pageSize == t * pageSize - pageSize;
  }

  lemma MulMonotone(a: int, b: int, c: int)
    requires a <= b && c >= 0
    ensures a * c <= b * c
  {
    assert b * c - a * c == (b - a) * c;
  }

  /** A page from 1 to `totalPages` is the non-empty run of rows from `startIndex` to `endIndex`. */
  lemma PageIsSlice<T>(rows: seq<T>, currentPage: int, pageSize: int)
    requires pageSize > 0 && 1 <= currentPage <= TotalPages(|rows|, pageSize)
    ensures var start, end := StartIndex(currentPage, pageSize), EndIndex(currentPage, pageSize, |rows|);
      && 0 <= start < end <= |rows| && end - start <= pageSize
      && PageRows(rows, currentPage, pageSize) == rows[start..end]
  {
    TotalPagesIsCeiling(|rows|, pageSize);
    MulMonotone(0, currentPage - 1, pageSize);
    MulMonotone(currentPage - 1, TotalPages(|rows|, pageSize) - 1, pageSize);
  }

  /** No page holds more than `pageSize` rows. */
  lemma PageAtMostPageSize<T>(rows: seq<T>, currentPage: int, pageSize: int)
    requires pageSize > 0 && currentPage >= 1
    ensures |PageRows(rows, currentPage, pageSize)| <= pageSize
  {
    MulMonotone(0, currentPage - 1, pageSize);
  }

  /** A page past `totalPages` is empty. */
  lemma PagePastLastIsEmpty<T>(rows: seq<T>, currentPage: int, pageSize: int)
    requires pageSize > 0 && currentPage > TotalPages(|rows|, pageSize)
    ensures PageRows(rows, currentPage, pageSize) == []
  {
    TotalPagesIsCeiling(|rows|, pageSize);
    MulMonotone(TotalPages(|rows|, pageSize), currentPage - 1, pageSize);
  }

  /** Row `i` is shown on page `i / pageSize + 1`, at position `i % pageSize`. */
  lemma RowOnItsPage<T>(rows: seq<T>, i: nat, pageSize: int)
    requires pageSize > 0 && i < |rows|
    ensures var p := i / pageSize + 1;
      && 1 <= p <= TotalPages(|rows|, pageSize)
      && i % pageSize < |PageRows(rows, p, pageSize)|
      && PageRows(rows, p, pageSize)[i % pageSize] == rows[i]
  {
    var p := i / pageSize + 1;
    TotalPagesIsCeiling(|rows|, pageSize);
    var t := TotalPages(|rows|, pageSize);
    assert i == (i / pageSize) * pageSize + i % pageSize;
    if p > t {
      MulMonotone(t, p - 1, pageSize);
      assert false;
    }
    assert StartIndex(p, pageSize) == i - i % pageSize;
    PageIsSlice(rows, p, pageSize);
  }

  /** Pages 1 to `k`, one after another. */
  function PagesUpTo<T>(rows: seq<T>, pageSize: int, k: nat): seq<T> {
    if k == 0 then [] else PagesUpTo(rows, pageSize, k - 1) + PageRows(rows, k, pageSize)
  }

  lemma {:induction false} PagesUpToPrefix<T>(rows: seq<T>, pageSize: int, k: nat)
    requires pageSize > 0 && k <= TotalPages(|rows|, pageSize)
    ensures k * pageSize <= |rows| ==> PagesUpTo(rows, pageSize, k) == rows[..k * pageSize]
    ensures k * pageSize > |rows| ==> PagesUpTo(rows, pageSize, k) == rows
  {
    if k > 0 {
      PagesUpToPrefix(rows, pageSize, k - 1);
      PageEnds(|rows|, pageSize, k);
      var lo, hi := StartIndex(k, pageSize), EndIndex(k, pageSize, |rows|);
      assert PageRows(rows, k, pageSize) == rows[lo..hi];
      assert PagesUpTo(rows, pageSize, k - 1) == rows[..lo];
      PrefixThenSlice(rows, lo, hi);
      assert PagesUpTo(rows, pageSize, k) == rows[..hi];
      if k * pageSize > |rows| {
        assert rows[..hi] == rows;
      }
    }
  }

  /** Page `k` starts where page `k - 1` ends and ends at `k * pageSize` or at the last row. */
  lemma PageEnds(n: nat, pageSize: int, k: nat)
    requires pageSize > 0 && 1 <= k <= TotalPages(n, pageSize)
    ensures var lo, hi := StartIndex(k, pageSize), EndIndex(k, pageSize, n);
      && lo == (k - 1) * pageSize && 0 <= lo < hi <= n
      && (k * pageSize <= n ==> hi == k * pageSize)
      && (k * pageSize > n ==> hi == n)
  {
    TotalPagesIsCeiling(n, pageSize);
    MulMonotone(k - 1, TotalPages(n, pageSize) - 1, pageSize);
    assert (k - 1) * pageSize == k * pageSize - pageSize;
  }

  /** Pages 1 to `totalPages`, read in order, show every row exactly once and in order. */
  lemma PagesCoverRows<T>(rows: seq<T>, pageSize: int)
    requires pageSize > 0
    ensures PagesUpTo(rows, pageSize, TotalPages(|rows|, pageSize)) == rows
  {
    var t := TotalPages(|rows|, pageSize);
    PagesUpToPrefix(rows, pageSize, t);
    TotalPagesIsCeiling(|rows|, pageSize);
    assert rows[..|rows|] == rows;
  }

  /** Previous and Next keep a page of `[1, totalPages]` inside it, and stay put exactly at the first and the last page. */
  lemma PageButtonsClamp(currentPage: int, totalPages: int)
    requires 1 <= currentPage <= totalPages
    ensures 1 <= PreviousPage(currentPage) <= totalPages && 1 <= NextPage(currentPage, totalPages) <= totalPages
    ensures PreviousPage(currentPage) == (if currentPage == 1 then 1 else currentPage - 1)
    ensures NextPage(currentPage, totalPages) == (if currentPage == totalPages then totalPages else currentPage + 1)
  {
  }

  /** On a page from 1 to `totalPages`, the "Showing" line spans exactly the rows of the page. */
  lemma ShownRangeCountsPage<T>(rows: seq<T>, currentPage: int, pageSize: int)
    requires pageSize > 0 && 1 <= currentPage <= TotalPages(|rows|, pageSize)
    ensures var range := ShownRange(StartIndex(currentPage, pageSize), EndIndex(currentPage, pageSize, |rows|), |rows|);
      && range.0 == StartIndex(currentPage, pageSize) + 1
      && range.1 - range.0 + 1 == |PageRows(rows, currentPage, pageSize)|
      && 1 <= range.0 <= range.1 <= |rows|
  {
    PageIsSlice(rows, currentPage, pageSize);
  }
}
