/**
 * The weight comparison table. It takes its search, filters, sort and
 * pagination from the `useTableFilters` hook, and adds a per-row weight
 * status badge, the spread of the present weights ("Difference") and the
 * highlighting of the weight cells.
 */
module WeightComparisonTable {
  import opened Wrappers
  import opened Types
  import TF = TableFilters
  import CE = ComparisonEngine

  datatype WeightStatus = Match | Mismatch | Incomplete

  /** `getWeightStatus`: all three weights present and matching, present and not matching, or not all present. */
  function WeightStatusOf(row: ComparisonRow): WeightStatus {
    var hasAll := row.jasterWeight.Some? && row.cisWeight.Some? && row.unifikasiWeight.Some?;
    if hasAll && row.weightMatch then Match
    else if hasAll && !row.weightMatch then Mismatch
    else Incomplete
  }

  // ---------------------------------------------------------------------------
  // The difference column

  /** `Math.max(...weights)`. */
  function MaxOf(s: seq<real>): (m: real)
    requires |s| > 0
    ensures m in s && forall x :: x in s ==> x <= m
  {
    if |s| == 1 then s[0]
    else
      assert s == [s[0]] + s[1..];
      var rest := MaxOf(s[1..]);
      if s[0] >= rest then s[0] else rest
  }

  /** `Math.min(...weights)`. */
  function MinOf(s: seq<real>): (m: real)
    requires |s| > 0
    ensures m in s && forall x :: x in s ==> m <= x
  {
    if |s| == 1 then s[0]
    else
      assert s == [s[0]] + s[1..];
      var rest := MinOf(s[1..]);
      if s[0] <= rest then s[0] else rest
  }

  /** `maxDiff`: the spread of the non-null weights when at least two are present, else 0. */
  function MaxDiff(row: ComparisonRow): (d: real)
    ensures d >= 0.0
  {
    var weights := CE.PresentWeights(row.jasterWeight, row.cisWeight, row.unifikasiWeight);
    if |weights| > 1 then MaxOf(weights) - MinOf(weights) else 0.0
  }

  /** The Difference cell: `±maxDiff` when `maxDiff > 0`, a dash (`None`) otherwise. */
  function DifferenceCell(row: ComparisonRow): Option<real> {
    var d := MaxDiff(row);
    if d > 0.0 then Some(d) else None
  }

  // ---------------------------------------------------------------------------
  // The weight cells

  /** A weight cell: a dash for a null weight, else the weight, highlighted or not. */
  datatype WeightCell = Dash | Shown(weight: real, highlighted: bool)

  /** The JASTER, CIS and UNIFIKASI cells: present weights are highlighted when the row's weights do not match. */
  function WeightCellOf(weight: Option<real>, weightMatch: bool): WeightCell {
    if weight.Some? then Shown(weight.value, !weightMatch && weight.Some?) else Dash
  }

  function Cells(row: ComparisonRow): seq<WeightCell> {
    [WeightCellOf(row.jasterWeight, row.weightMatch),
     WeightCellOf(row.cisWeight, row.weightMatch),
     WeightCellOf(row.unifikasiWeight, row.weightMatch)]
  }

  // ---------------------------------------------------------------------------
  // The page buttons, through the hook's setter

  /** The Previous button: `setCurrentPage(Math.max(1, currentPage - 1))`. */
  method PreviousPage(state: TF.TableState)
    modifies state
    ensures state.currentPage == TF.PreviousPage(old(state.currentPage))
    ensures state.searchTerm == old(state.searchTerm) && state.filter == old(state.filter)
    ensures state.sortField == old(state.sortField) && state.sortDirection == old(state.sortDirection)
    ensures state.pageSize == old(state.pageSize)
  {
    state.SetCurrentPage(TF.PreviousPage(state.currentPage));
  }

  /** The Next button: `setCurrentPage(Math.min(totalPages, currentPage + 1))`. */
  method NextPage(state: TF.TableState, totalPages: int)
    modifies state
    ensures state.currentPage == TF.NextPage(old(state.currentPage), totalPages)
    ensures state.searchTerm == old(state.searchTerm) && state.filter == old(state.filter)
    ensures state.sortField == old(state.sortField) && state.sortDirection == old(state.sortDirection)
    ensures state.pageSize == old(state.pageSize)
  {
    state.SetCurrentPage(TF.NextPage(state.currentPage, totalPages));
  }
}
