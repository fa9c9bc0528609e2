/**
 * The AWB presence table: which sources hold each AWB. It has its own
 * presence filters, a sort by AWB only whose direction the column header
 * toggles, its own pagination state, and two per-row helpers: the presence
 * badge and the list of sources the AWB is missing from.
 */
module AwbComparisonTable {
  import opened Wrappers
  import opened Types
  import opened RowOrder
  import TF = TableFilters
  import CE = ComparisonEngine

  datatype FilterType = All | AllSheets | JasterOnly | CisOnly | UnifikasiOnly | MissingAny

  // ---------------------------------------------------------------------------
  // Filtering and sorting

  /** The row predicate of each presence filter. */
  predicate KeepsRow(filter: FilterType, row: ComparisonRow) {
    var s := row.status;
    match filter
    case All => true
    case AllSheets => s.inJaster && s.inCis && s.inUnifikasi
    case JasterOnly => s.inJaster && !s.inCis && !s.inUnifikasi
    case CisOnly => !s.inJaster && s.inCis && !s.inUnifikasi
    case UnifikasiOnly => !s.inJaster && !s.inCis && s.inUnifikasi
    case MissingAny => !s.inJaster || !s.inCis || !s.inUnifikasi
  }

  function FilterPredicate(filter: FilterType): ComparisonRow -> bool {
    row => KeepsRow(filter, row)
  }

  /** The presence-filter step: `all` leaves the rows as they are. */
  function ApplyFilter(rows: seq<ComparisonRow>, filter: FilterType): seq<ComparisonRow> {
    if filter == All then rows else Seqs.Filter(rows, FilterPredicate(filter))
  }

  function FilterStep(filter: FilterType): Option<ComparisonRow -> bool> {
    if filter == All then None else Some(FilterPredicate(filter))
  }

  /** The table's `filteredAndSortedRows` as a value: the hook's search, the presence filter, then the AWB order. */
  function FilteredAndSorted(rows: seq<ComparisonRow>, term: string, filter: FilterType, dir: SortDirection): seq<ComparisonRow> {
    Sort(ApplyFilter(TF.ApplySearch(rows, term), filter), Awb, dir)
  }

  /** The table's memoised computation; as in the hook, the caller's array is sorted in place when nothing is filtered. */
  method FilterAndSort(rows: array<ComparisonRow>, term: string, filter: FilterType, dir: SortDirection)
    returns (filtered: array<ComparisonRow>)
    modifies rows
    ensures filtered[..] == FilteredAndSorted(old(rows[..]), term, filter, dir)
    ensures term == "" && filter == All ==> filtered == rows
    ensures !(term == "" && filter == All) ==> fresh(filtered) && rows[..] == old(rows[..])
  {
    filtered := FilterThenSort(rows, TF.SearchStep(term), FilterStep(filter), Awb, dir);
  }

  // ---------------------------------------------------------------------------
  // Pagination

  /** This table's `endIndex`: `startIndex + pageSize`, without the hook's `Math.min`. */
  function EndIndex(currentPage: int, pageSize: int): int {
    TF.StartIndex(currentPage, pageSize) + pageSize
  }

  function PageRows(rows: seq<ComparisonRow>, currentPage: int, pageSize: int): seq<ComparisonRow> {
    TF.JsSlice(rows, TF.StartIndex(currentPage, pageSize), EndIndex(currentPage, pageSize))
  }

  // ---------------------------------------------------------------------------
  // Per-row helpers

  /** `getPresenceStatus`: the badge text for the number of sources holding the AWB. */
  function PresenceBadge(status: Status): string {
    var count := CE.PresenceCount(status);
    if count == 3 then "All Sheets"
    else if count == 2 then "2 Sheets"
    else if count == 1 then "1 Sheet Only"
    else "None"
  }

  /** The sources an AWB is missing from, in JASTER, CIS, UNIFIKASI order. */
  function MissingFrom(status: Status): (missing: seq<string>)
    ensures forall s :: s in missing <==> (s == Jaster && !status.inJaster) || (s == Cis && !status.inCis) || (s == Unifikasi && !status.inUnifikasi)
    ensures |missing| == 3 - CE.PresenceCount(status)
  {
    (if !status.inJaster then [Jaster] else [])
    + (if !status.inCis then [Cis] else [])
    + (if !status.inUnifikasi then [Unifikasi] else [])
  }

  /** `getMissingSheets`: pushes each absent source onto a fresh list. */
  method GetMissingSheets(row: ComparisonRow) returns (missing: seq<string>)
    ensures missing == MissingFrom(row.status)
  {
    missing := [];
    if !row.status.inJaster {
      missing := missing + [Jaster];
    }
    if !row.status.inCis {
      missing := missing + [Cis];
    }
    if !row.status.inUnifikasi {
      missing := missing + [Unifikasi];
    }
  }

  // ---------------------------------------------------------------------------
  // The table state

  /** The five state cells of the table. */
  class AwbTableState {
    var searchTerm: string
    var filter: FilterType
    var sortDirection: SortDirection
    var currentPage: int
    var pageSize: int

    constructor()
      ensures searchTerm == "" && filter == All && sortDirection == Asc && currentPage == 1 && pageSize == 50
    {
      searchTerm := "";
      filter := All;
      sortDirection := Asc;
      currentPage := 1;
      pageSize := 50;
    }

    /** The search box, followed by the reset effect that fires when the term changes. */
    method SetSearchTerm(term: string)
      modifies this
      ensures searchTerm == term
      ensures currentPage == if term != old(searchTerm) then 1 else old(currentPage)
      ensures filter == old(filter) && sortDirection == old(sortDirection) && pageSize == old(pageSize)
    {
      if term != searchTerm {
        currentPage := 1;
      }
      searchTerm := term;
    }

    /** The filter select, followed by the reset effect that fires when the filter changes. */
    method SetFilter(f: FilterType)
      modifies this
      ensures filter == f
      ensures currentPage == if f != old(filter) then 1 else old(currentPage)
      ensures searchTerm == old(searchTerm) && sortDirection == old(sortDirection) && pageSize == old(pageSize)
    {
      if f != filter {
        currentPage := 1;
      }
      filter := f;
    }

    /** The AWB column header: flips the direction, which always fires the reset effect. */
    method ToggleSort()
      modifies this
      ensures sortDirection == Toggle(old(sortDirection)) && currentPage == 1
      ensures searchTerm == old(searchTerm) && filter == old(filter) && pageSize == old(pageSize)
    {
      sortDirection := Toggle(sortDirection);
      currentPage := 1;
    }

    /** The rows-per-page select; it does not reset the page. */
    method SetPageSize(size: int)
      modifies this
      ensures pageSize == size
      ensures searchTerm == old(searchTerm) && filter == old(filter) && sortDirection == old(sortDirection)
      ensures currentPage == old(currentPage)
    {
      pageSize := size;
    }

    /** The Previous button. */
    method PreviousPage()
      modifies this
      ensures currentPage == TF.PreviousPage(old(currentPage))
      ensures searchTerm == old(searchTerm) && filter == old(filter) && sortDirection == old(sortDirection)
      ensures pageSize == old(pageSize)
    {
      currentPage := TF.PreviousPage(currentPage);
    }

    /** The Next button, with the `totalPages` of the current rendering. */
    method NextPage(totalPages: int)
      modifies this
      ensures currentPage == TF.NextPage(old(currentPage), totalPages)
      ensures searchTerm == old(searchTerm) && filter == old(filter) && sortDirection == old(sortDirection)
      ensures pageSize == old(pageSize)
    {
      currentPage := TF.NextPage(currentPage, totalPages);
    }

    /** The rows the table shows for the current state. */
    function Visible(rows: seq<ComparisonRow>): seq<ComparisonRow>
      reads this
    {
      PageRows(FilteredAndSorted(rows, searchTerm, filter, sortDirection), currentPage, pageSize)
    }
  }
}
