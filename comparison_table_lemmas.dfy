/**
 * What the comparison table's filters, order and status badge guarantee,
 * and how they agree with the hook and with the statistics on the rows the
 * engine produces.
 */
module ComparisonTableProperties {
  import opened Seqs
  import opened Types
  import opened RowOrder
  import opened ComparisonTable
  import TF = TableFilters
  import TFP = TableFilterProperties
  import CE = ComparisonEngine
  import EP = EngineProperties

  // ---------------------------------------------------------------------------
  // Filters and order

  /** Each filter keeps exactly the rows its predicate accepts; `all` keeps every row in place. */
  lemma FilterMembership(rows: seq<ComparisonRow>, filter: FilterType)
    ensures filter == All ==> ApplyFilter(rows, filter) == rows
    ensures forall r :: r in ApplyFilter(rows, filter) <==> r in rows && KeepsRow(filter, r)
  {
  }

  /**
   * The table shows the rows that pass the search and the filter, each as
   * often as in the input, ordered by the comparator; the "showing n of m"
   * count never exceeds the number of rows.
   */
  lemma OrderedByComparator(rows: seq<ComparisonRow>, term: string, filter: FilterType, field: SortField, dir: SortDirection)
    ensures var out := FilteredAndSorted(rows, term, filter, field, dir);
      && Sorted(out, field, dir)
      && multiset(out) == multiset(ApplyFilter(TF.ApplySearch(rows, term), filter))
      && (forall r :: r in out <==> r in rows && Contains(Lower(r.awb), Lower(term)) && KeepsRow(filter, r))
      && |out| <= |rows|
  {
    var kept := ApplyFilter(TF.ApplySearch(rows, term), filter);
    SortSorted(kept, field, dir);
    TFP.SearchMembership(rows, term);
    SameMembers(Sort(kept, field, dir), kept);
  }

  /** The hook's filter of the same name. */
  function HookFilter(filter: FilterType): TF.FilterType {
    match filter
    case All => TF.All
    case Mismatches => TF.Mismatches
    case Missing => TF.Missing
    case Perfect => TF.Perfect
  }

  /** On an engine row, reading the presence flags and reading the weights give the same filter verdicts. */
  lemma FilterAgreesWithHookOnEngineRow(row: ComparisonRow, filter: FilterType)
    requires CE.IsEngineRow(row)
    ensures KeepsRow(filter, row) == TF.KeepsRow(HookFilter(filter), row)
  {
  }

  /** On engine rows, this table and the hook show the same rows in the same order for the same settings. */
  lemma SameViewAsHook(rows: seq<ComparisonRow>, term: string, filter: FilterType, field: SortField, dir: SortDirection)
    requires forall r :: r in rows ==> CE.IsEngineRow(r)
    ensures FilteredAndSorted(rows, term, filter, field, dir) == TF.FilteredAndSorted(rows, term, HookFilter(filter), field, dir)
  {
    var searched := TF.ApplySearch(rows, term);
    if filter != All {
      forall i | 0 <= i < |searched|
        ensures FilterPredicate(filter)(searched[i]) == TF.FilterPredicate(HookFilter(filter))(searched[i])
      {
        assert searched[i] in searched;
        FilterAgreesWithHookOnEngineRow(searched[i], filter);
      }
      FilterCongruent(searched, FilterPredicate(filter), TF.FilterPredicate(HookFilter(filter)));
    }
  }

  /** On an engine row, `mismatches` keeps exactly the rows tagged "Weight mismatch" and `perfect` exactly the untagged ones. */
  lemma FiltersMatchTags(row: ComparisonRow)
    requires CE.IsEngineRow(row)
    ensures KeepsRow(Mismatches, row) <==> EP.IsFlaggedMismatch(row)
    ensures KeepsRow(Perfect, row) <==> EP.IsClean(row)
  {
    EP.CountedAsTagged(row);
    assert |CE.PresentWeights(row.jasterWeight, row.cisWeight, row.unifikasiWeight)| == CE.PresenceCount(row.status);
  }

  /** On rows the engine builds, the filters show as many rows as the matching counters report. */
  lemma FilterSizesOnEngineRows(rows: seq<ComparisonRow>)
    requires forall i :: 0 <= i < |rows| ==> CE.IsEngineRow(rows[i])
    ensures var s := CE.StatsOf(rows);
      && |ApplyFilter(rows, Mismatches)| == s.weightMismatches
      && |ApplyFilter(rows, Perfect)| == s.perfectMatches
      && |ApplyFilter(rows, Missing)| == s.totalUniqueAwbs - s.inAllThree
  {
    forall i | 0 <= i < |rows|
      ensures FilterPredicate(Mismatches)(rows[i]) == EP.IsFlaggedMismatch(rows[i])
      ensures FilterPredicate(Perfect)(rows[i]) == EP.IsClean(rows[i])
    {
      FiltersMatchTags(rows[i]);
    }
    FilterCongruent(rows, FilterPredicate(Mismatches), EP.IsFlaggedMismatch);
    FilterCongruent(rows, FilterPredicate(Perfect), EP.IsClean);
    EP.MismatchesAreFlaggedRows(rows);
    EP.PerfectMatchesAreCleanRows(rows);
    FilterComplement(rows, EP.HasPresence(CE.AllThree), FilterPredicate(Missing));
    EP.CountPresenceIsFilter(rows, CE.AllThree);
  }

  /** The same on a comparison's rows. */
  lemma FilterSizesMatchStats(data: ParsedExcelData)
    ensures var rows := CE.EngineRows(data); var s := CE.StatsOf(rows);
      && |ApplyFilter(rows, Mismatches)| == s.weightMismatches
      && |ApplyFilter(rows, Perfect)| == s.perfectMatches
      && |ApplyFilter(rows, Missing)| == s.totalUniqueAwbs - s.inAllThree
  {
    EP.NoRowHasDuplicates(data);
    FilterSizesOnEngineRows(CE.EngineRows(data));
  }

  // ---------------------------------------------------------------------------
  // The status badge

  /** The three badges, each exactly in its case; the problem badge reads back as the number of discrepancies. */
  lemma StatusBadgeMeaning(row: ComparisonRow)
    ensures var perfect := row.status.inJaster && row.status.inCis && row.status.inUnifikasi && row.weightMatch;
      && (StatusBadge(row) == "Kecocokan Sempurna" <==> perfect)
      && (StatusBadge(row) == "Sebagian" <==> !perfect && row.discrepancies == [])
      && (!perfect && row.discrepancies != [] ==>
            var b := StatusBadge(row);
            |b| > 8 && b[|b| - 8..] == " Masalah" && DecimalValue(b[..|b| - 8]) == |row.discrepancies|)
  {
    var perfect := row.status.inJaster && row.status.inCis && row.status.inUnifikasi && row.weightMatch;
    if !perfect && row.discrepancies != [] {
      var digits := NatToDecimal(|row.discrepancies|);
      var b := digits + " Masalah";
      assert b[0] == digits[0];
      assert "Kecocokan Sempurna"[0] == 'K' && "Sebagian"[0] == 'S';
      assert b[..|b| - 8] == digits && b[|b| - 8..] == " Masalah";
      DecimalRoundTrip(|row.discrepancies|);
    }
  }

  /** An engine row is never "Sebagian", and one that is not perfect carries one or two problems. */
  lemma EngineRowBadge(row: ComparisonRow)
    requires CE.IsEngineRow(row) && CE.PresenceCount(row.status) >= 1
    ensures StatusBadge(row) != "Sebagian"
    ensures StatusBadge(row) != "Kecocokan Sempurna" ==> 1 <= |row.discrepancies| <= 2
  {
    EP.DiscrepancyTags(row);
    StatusBadgeMeaning(row);
    assert |CE.PresentWeights(row.jasterWeight, row.cisWeight, row.unifikasiWeight)| == CE.PresenceCount(row.status);
  }
}
