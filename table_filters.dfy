/**
 * The `useTableFilters` hook: search and type filters over the comparison
 * rows, the comparator sort, pagination, and the hook state with its
 * setters, `handleSort` and the page reset.
 *
 * React's state cells become the fields of `TableState`; a re-render that
 * recomputes the memoised values is a call of `FilterAndSort` and of the
 * pagination functions on the current fields.
 */
module TableFilters {
  import opened Wrappers
  import opened Seqs
  import opened Types
  import opened RowOrder

  datatype FilterType = All | Mismatches | Missing | Perfect | Duplicates

  // ---------------------------------------------------------------------------
  // Filters

  /** `row.awb.toLowerCase().includes(term)` for an already lower-cased `term`. */
  predicate MatchesSearch(row: ComparisonRow, loweredTerm: string) {
    Contains(Lower(row.awb), loweredTerm)
  }

  function SearchPredicate(loweredTerm: string): ComparisonRow -> bool {
    row => MatchesSearch(row, loweredTerm)
  }

  /** The search step: skipped for an empty term, else a case-insensitive substring match on the AWB. */
  function ApplySearch(rows: seq<ComparisonRow>, term: string): seq<ComparisonRow> {
    if term == "" then rows else Filter(rows, SearchPredicate(Lower(term)))
  }

  /** The row predicate of each filter type. */
  predicate KeepsRow(filter: FilterType, row: ComparisonRow) {
    match filter
    case All => true
    case Mismatches => !row.weightMatch && |row.discrepancies| > 0
    case Missing => row.jasterWeight.None? || row.cisWeight.None? || row.unifikasiWeight.None?
    case Perfect => row.jasterWeight.Some? && row.cisWeight.Some? && row.unifikasiWeight.Some? && row.weightMatch
    case Duplicates => row.hasDuplicates
  }

  function FilterPredicate(filter: FilterType): ComparisonRow -> bool {
    row => KeepsRow(filter, row)
  }

  /** The type-filter step: `all` leaves the rows as they are. */
  function ApplyFilter(rows: seq<ComparisonRow>, filter: FilterType): seq<ComparisonRow> {
    if filter == All then rows else Filter(rows, FilterPredicate(filter))
  }

  /** `filteredAndSortedRows` as a value. */
  function FilteredAndSorted(rows: seq<ComparisonRow>, term: string, filter: FilterType, field: SortField, dir: SortDirection): seq<ComparisonRow> {
    Sort(ApplyFilter(ApplySearch(rows, term), filter), field, dir)
  }

  /** The search step as `FilterThenSort` takes it: skipped for an empty term. */
  function SearchStep(term: string): Option<ComparisonRow -> bool> {
    if term == "" then None else Some(SearchPredicate(Lower(term)))
  }

  /** The type-filter step as `FilterThenSort` takes it: skipped for `all`. */
  function FilterStep(filter: FilterType): Option<ComparisonRow -> bool> {
    if filter == All then None else Some(FilterPredicate(filter))
  }

  /**
   * `filteredAndSortedRows`. With no search term and filter `all`, the
   * caller's array itself is sorted and returned.
   */
  method FilterAndSort(rows: array<ComparisonRow>, term: string, filter: FilterType, field: SortField, dir: SortDirection)
    returns (filtered: array<ComparisonRow>)
    modifies rows
    ensures filtered[..] == FilteredAndSorted(old(rows[..]), term, filter, field, dir)
    ensures term == "" && filter == All ==> filtered == rows
    ensures !(term == "" && filter == All) ==> fresh(filtered) && rows[..] == old(rows[..])
  {
    filtered := FilterThenSort(rows, SearchStep(term), FilterStep(filter), field, dir);
  }

  // ---------------------------------------------------------------------------
  // Pagination

  /** `Math.ceil(n / pageSize)` for a positive page size. */
  function TotalPages(n: nat, pageSize: int): nat
    requires pageSize > 0
  {
    (n + pageSize - 1) / pageSize
  }

  function StartIndex(currentPage: int, pageSize: int): int {
    (currentPage - 1) * pageSize
  }

  function EndIndex(currentPage: int, pageSize: int, n: nat): int {
    var start := StartIndex(currentPage, pageSize);
    if start + pageSize < n then start + pageSize else n
  }

  /** A `slice` bound: a negative one counts from the end, and both are clamped into `[0, n]`. */
  function SliceBound(i: int, n: nat): (b: nat)
    ensures b <= n
  {
    if i < 0 then (if n + i < 0 then 0 else n + i) else if i > n then n else i
  }

  /** `s.slice(start, end)`. */
  function JsSlice<T>(s: seq<T>, start: int, end: int): (r: seq<T>)
    ensures |r| <= |s|
  {
    var lo, hi := SliceBound(start, |s|), SliceBound(end, |s|);
    if lo < hi then s[lo..hi] else []
  }

  /** `paginatedRows`. */
  function PageRows<T>(rows: seq<T>, currentPage: int, pageSize: int): seq<T> {
    JsSlice(rows, StartIndex(currentPage, pageSize), EndIndex(currentPage, pageSize, |rows|))
  }

  /** The Previous button: `Math.max(1, currentPage - 1)`. */
  function PreviousPage(currentPage: int): int {
    if currentPage - 1 > 1 then currentPage - 1 else 1
  }

  /** The Next button: `Math.min(totalPages, currentPage + 1)`. */
  function NextPage(currentPage: int, totalPages: int): int {
    if currentPage + 1 < totalPages then currentPage + 1 else totalPages
  }

  /** The "Showing first-last of n records" line: `startIndex + 1` and `Math.min(endIndex, n)`. */
  function ShownRange(start: int, end: int, n: nat): (int, int) {
    (start + 1, if end < n then end else n)
  }

  // ---------------------------------------------------------------------------
  // The hook state

  /** The six state cells of the hook. */
  class TableState {
    var searchTerm: string
    var filter: FilterType
    var sortField: SortField
    var sortDirection: SortDirection
    var currentPage: int
    var pageSize: int

    /** The initial state for `useTableFilters({ rows, initialPageSize })`. */
    constructor(initialPageSize: int := DefaultPageSize)
      ensures searchTerm == "" && filter == All && sortField == Awb && sortDirection == Asc
      ensures currentPage == 1 && pageSize == initialPageSize
    {
      searchTerm := "";
      filter := All;
      sortField := Awb;
      sortDirection := Asc;
      currentPage := 1;
      pageSize := initialPageSize;
    }

    /** `setSearchTerm`, followed by the reset effect that fires when the term changes. */
    method SetSearchTerm(term: string)
      modifies this
      ensures searchTerm == term
      ensures currentPage == if term != old(searchTerm) then 1 else old(currentPage)
      ensures filter == old(filter) && sortField == old(sortField) && sortDirection == old(sortDirection) && pageSize == old(pageSize)
    {
      if term != searchTerm {
        currentPage := 1;
      }
      searchTerm := term;
    }

    /** `setFilter`, followed by the reset effect that fires when the filter changes. */
    method SetFilter(f: FilterType)
      modifies this
      ensures filter == f
      ensures currentPage == if f != old(filter) then 1 else old(currentPage)
      ensures searchTerm == old(searchTerm) && sortField == old(sortField) && sortDirection == old(sortDirection) && pageSize == old(pageSize)
    {
      if f != filter {
        currentPage := 1;
      }
      filter := f;
    }

    method SetSortField(field: SortField)
      modifies this
      ensures sortField == field
      ensures searchTerm == old(searchTerm) && filter == old(filter) && sortDirection == old(sortDirection)
      ensures currentPage == old(currentPage) && pageSize == old(pageSize)
    {
      sortField := field;
    }

    method SetSortDirection(dir: SortDirection)
      modifies this
      ensures sortDirection == dir
      ensures searchTerm == old(searchTerm) && filter == old(filter) && sortField == old(sortField)
      ensures currentPage == old(currentPage) && pageSize == old(pageSize)
    {
      sortDirection := dir;
    }

    method SetCurrentPage(page: int)
      modifies this
      ensures currentPage == page
      ensures searchTerm == old(searchTerm) && filter == old(filter) && sortField == old(sortField)
      ensures sortDirection == old(sortDirection) && pageSize == old(pageSize)
    {
      currentPage := page;
    }

    method SetPageSize(size: int)
      modifies this
      ensures pageSize == size
      ensures searchTerm == old(searchTerm) && filter == old(filter) && sortField == old(sortField)
      ensures sortDirection == old(sortDirection) && currentPage == old(currentPage)
    {
      pageSize := size;
    }

    /** `handleSort`: the same field flips the direction, another field is selected ascending. */
    method HandleSort(field: SortField)
      modifies this
      ensures sortField == field
      ensures sortDirection == if old(sortField) == field then Toggle(old(sortDirection)) else Asc
      ensures searchTerm == old(searchTerm) && filter == old(filter) && currentPage == old(currentPage) && pageSize == old(pageSize)
    {
      if sortField == field {
        sortDirection := Toggle(sortDirection);
      } else {
        sortDirection := Asc;
        sortField := field;
      }
    }

    /** `resetPage`. */
    method ResetPage()
      modifies this
      ensures currentPage == 1
      ensures searchTerm == old(searchTerm) && filter == old(filter) && sortField == old(sortField)
      ensures sortDirection == old(sortDirection) && pageSize == old(pageSize)
    {
      currentPage := 1;
    }

    /** The rows the table shows for the current state. */
    function Visible(rows: seq<ComparisonRow>): seq<ComparisonRow>
      reads this
    {
      PageRows(FilteredAndSorted(rows, searchTerm, filter, sortField, sortDirection), currentPage, pageSize)
    }
  }
}
