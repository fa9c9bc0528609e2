/**
 * The earlier comparison table: the search, four filters stated on the
 * presence flags, the comparator sort with `handleSort`, the result count
 * and the per-row status badge. It has no pagination.
 */
module ComparisonTable {
  import opened Wrappers
  import opened Seqs
  import opened Types
  import opened RowOrder
  import TF = TableFilters

  datatype FilterType = All | Mismatches | Missing | Perfect

  // ---------------------------------------------------------------------------
  // Filtering and sorting

  /** The row predicate of each filter; `missing` and `perfect` read the presence flags, not the weights. */
  predicate KeepsRow(filter: FilterType, row: ComparisonRow) {
    var s := row.status;
    match filter
    case All => true
    case Mismatches => !row.weightMatch && |row.discrepancies| > 0
    case Missing => !s.inJaster || !s.inCis || !s.inUnifikasi
    case Perfect => s.inJaster && s.inCis && s.inUnifikasi && row.weightMatch
  }

  function FilterPredicate(filter: FilterType): ComparisonRow -> bool {
    row => KeepsRow(filter, row)
  }

  /** The filter step: `all` leaves the rows as they are. */
  function ApplyFilter(rows: seq<ComparisonRow>, filter: FilterType): seq<ComparisonRow> {
    if filter == All then rows else Filter(rows, FilterPredicate(filter))
  }

  function FilterStep(filter: FilterType): Option<ComparisonRow -> bool> {
    if filter == All then None else Some(FilterPredicate(filter))
  }

  /** The table's `filteredAndSortedRows` as a value: the hook's search, this table's filter, then the comparator order. */
  function FilteredAndSorted(rows: seq<ComparisonRow>, term: string, filter: FilterType, field: SortField, dir: SortDirection): seq<ComparisonRow> {
    Sort(ApplyFilter(TF.ApplySearch(rows, term), filter), field, dir)
  }

  /** The table's memoised computation; the caller's array is sorted in place when nothing is filtered. */
  method FilterAndSort(rows: array<ComparisonRow>, term: string, filter: FilterType, field: SortField, dir: SortDirection)
    returns (filtered: array<ComparisonRow>)
    modifies rows
    ensures filtered[..] == FilteredAndSorted(old(rows[..]), term, filter, field, dir)
    ensures term == "" && filter == All ==> filtered == rows
    ensures !(term == "" && filter == All) ==> fresh(filtered) && rows[..] == old(rows[..])
  {
    filtered := FilterThenSort(rows, TF.SearchStep(term), FilterStep(filter), field, dir);
  }

  // ---------------------------------------------------------------------------
  // The status badge

  /** `getStatusBadge`: perfect, else the number of problems, else partial. */
  function StatusBadge(row: ComparisonRow): string {
    var s := row.status;
    if s.inJaster && s.inCis && s.inUnifikasi && row.weightMatch then "Kecocokan Sempurna"
    else if |row.discrepancies| > 0 then NatToDecimal(|row.discrepancies|) + " Masalah"
    else "Sebagian"
  }

  // ---------------------------------------------------------------------------
  // The table state

  /** The four state cells of the table. */
  class ComparisonTableState {
    var searchTerm: string
    var filter: FilterType
    var sortField: SortField
    var sortDirection: SortDirection

    constructor()
      ensures searchTerm == "" && filter == All && sortField == Awb && sortDirection == Asc
    {
      searchTerm := "";
      filter := All;
      sortField := Awb;
      sortDirection := Asc;
    }

    method SetSearchTerm(term: string)
      modifies this
      ensures searchTerm == term
      ensures filter == old(filter) && sortField == old(sortField) && sortDirection == old(sortDirection)
    {
      searchTerm := term;
    }

    method SetFilter(f: FilterType)
      modifies this
      ensures filter == f
      ensures searchTerm == old(searchTerm) && sortField == old(sortField) && sortDirection == old(sortDirection)
    {
      filter := f;
    }

    /** `handleSort`: the same field flips the direction, another field is selected ascending. */
    method HandleSort(field: SortField)
      modifies this
      ensures sortField == field
      ensures sortDirection == if old(sortField) == field then Toggle(old(sortDirection)) else Asc
      ensures searchTerm == old(searchTerm) && filter == old(filter)
    {
      if sortField == field {
        sortDirection := Toggle(sortDirection);
      } else {
        sortField := field;
        sortDirection := Asc;
      }
    }

    /** The rows the table shows for the current state. */
    function Visible(rows: seq<ComparisonRow>): seq<ComparisonRow>
      reads this
    {
      FilteredAndSorted(rows, searchTerm, filter, sortField, sortDirection)
    }
  }
}
