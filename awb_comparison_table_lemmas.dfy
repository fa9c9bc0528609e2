/**
 * What the AWB presence table's filters, order, pagination and per-row
 * helpers guarantee, and how they agree with the comparison statistics.
 */
module AwbTableProperties {
  import opened Seqs
  import opened Types
  import opened RowOrder
  import opened AwbComparisonTable
  import TF = TableFilters
  import TFP = TableFilterProperties
  import CE = ComparisonEngine
  import EP = EngineProperties

  // ---------------------------------------------------------------------------
  // Filters

  /** Each presence filter keeps exactly the rows its predicate accepts; `all` keeps every row in place. */
  lemma FilterMembership(rows: seq<ComparisonRow>, filter: FilterType)
    ensures filter == All ==> ApplyFilter(rows, filter) == rows
    ensures forall r :: r in ApplyFilter(rows, filter) <==> r in rows && KeepsRow(filter, r)
  {
  }

  /** "In All Sheets" and "Missing from Any" split the rows between them. */
  lemma AllSheetsAndMissingAnyPartition(rows: seq<ComparisonRow>)
    ensures forall r :: KeepsRow(AllSheets, r) <==> !KeepsRow(MissingAny, r)
    ensures |ApplyFilter(rows, AllSheets)| + |ApplyFilter(rows, MissingAny)| == |rows|
  {
    FilterComplement(rows, FilterPredicate(AllSheets), FilterPredicate(MissingAny));
  }

  /** The three "only" filters select pairwise disjoint rows, all of them missing from some source. */
  lemma OnlyFiltersDisjoint(r: ComparisonRow)
    ensures !(KeepsRow(JasterOnly, r) && KeepsRow(CisOnly, r))
    ensures !(KeepsRow(JasterOnly, r) && KeepsRow(UnifikasiOnly, r))
    ensures !(KeepsRow(CisOnly, r) && KeepsRow(UnifikasiOnly, r))
    ensures KeepsRow(JasterOnly, r) || KeepsRow(CisOnly, r) || KeepsRow(UnifikasiOnly, r) ==> KeepsRow(MissingAny, r)
    ensures KeepsRow(JasterOnly, r) || KeepsRow(CisOnly, r) || KeepsRow(UnifikasiOnly, r) <==> CE.PresenceCount(r.status) == 1
  {
  }

  lemma SameSize(rows: seq<ComparisonRow>, filter: FilterType, p: CE.Presence)
    requires filter != All
    requires forall r :: KeepsRow(filter, r) <==> CE.PresenceOf(r.status) == p
    ensures |ApplyFilter(rows, filter)| == CE.CountPresence(rows, p)
  {
    FilterCongruent(rows, FilterPredicate(filter), EP.HasPresence(p));
    EP.CountPresenceIsFilter(rows, p);
  }

  /** On any rows, and so on a comparison's, the filters show as many rows as the matching counters report. */
  lemma FilterSizesMatchStats(rows: seq<ComparisonRow>)
    ensures var s := CE.StatsOf(rows);
      && |ApplyFilter(rows, AllSheets)| == s.inAllThree
      && |ApplyFilter(rows, JasterOnly)| == s.inJasterOnly
      && |ApplyFilter(rows, CisOnly)| == s.inCisOnly
      && |ApplyFilter(rows, UnifikasiOnly)| == s.inUnifikasiOnly
      && |ApplyFilter(rows, MissingAny)| == s.totalUniqueAwbs - s.inAllThree
  {
    SameSize(rows, AllSheets, CE.AllThree);
    SameSize(rows, JasterOnly, CE.JasterOnly);
    SameSize(rows, CisOnly, CE.CisOnly);
    SameSize(rows, UnifikasiOnly, CE.UnifikasiOnly);
    AllSheetsAndMissingAnyPartition(rows);
  }

  // ---------------------------------------------------------------------------
  // Order

  /** The table shows the rows that pass the search and the presence filter, ordered by AWB in the chosen direction. */
  lemma OrderedByAwb(rows: seq<ComparisonRow>, term: string, filter: FilterType, dir: SortDirection)
    ensures var out := FilteredAndSorted(rows, term, filter, dir);
      && multiset(out) == multiset(ApplyFilter(TF.ApplySearch(rows, term), filter))
      && (forall r :: r in out <==> r in rows && Contains(Lower(r.awb), Lower(term)) && KeepsRow(filter, r))
      && (forall i, j :: 0 <= i < j < |out| ==>
            if dir == Asc then LocaleCompare(out[i].awb, out[j].awb) <= 0 else LocaleCompare(out[j].awb, out[i].awb) <= 0)
  {
    var kept := ApplyFilter(TF.ApplySearch(rows, term), filter);
    SortSorted(kept, Awb, dir);
    TFP.SearchMembership(rows, term);
    SameMembers(Sort(kept, Awb, dir), kept);
    SortedByAwb(Sort(kept, Awb, dir), dir);
  }

  /** Sorted by the AWB comparator is ordered by `localeCompare` in the chosen direction. */
  lemma SortedByAwb(s: seq<ComparisonRow>, dir: SortDirection)
    requires Sorted(s, Awb, dir)
    ensures forall i, j :: 0 <= i < j < |s| ==>
      if dir == Asc then LocaleCompare(s[i].awb, s[j].awb) <= 0 else LocaleCompare(s[j].awb, s[i].awb) <= 0
  {
    forall i, j | 0 <= i < j < |s|
      ensures if dir == Asc then LocaleCompare(s[i].awb, s[j].awb) <= 0 else LocaleCompare(s[j].awb, s[i].awb) <= 0
    {
      assert Compare(s[i], s[j], Awb, dir) <= 0.0;
    }
  }

  // ---------------------------------------------------------------------------
  // Pagination

  /** Dropping the `Math.min` changes nothing: `slice` clamps the end itself, so the page is the hook's page. */
  lemma PageAgreesWithHook(rows: seq<ComparisonRow>, currentPage: int, pageSize: int)
    ensures PageRows(rows, currentPage, pageSize) == TF.PageRows(rows, currentPage, pageSize)
  {
  }

  // ---------------------------------------------------------------------------
  // Per-row helpers

  /** The position of a source in JASTER, CIS, UNIFIKASI order. */
  function SourceRank(name: string): nat {
    if name == Jaster then 0 else if name == Cis then 1 else 2
  }

  /** The missing sources are listed without repetition in JASTER, CIS, UNIFIKASI order, and none iff the AWB is in all three. */
  lemma MissingFromInSourceOrder(status: Status)
    ensures var m := MissingFrom(status);
      (forall i, j :: 0 <= i < j < |m| ==> SourceRank(m[i]) < SourceRank(m[j]))
      && (m == [] <==> status.inJaster && status.inCis && status.inUnifikasi)
  {
  }

  /** The presence badge and the missing list agree: the badge counts the sources the list leaves out. */
  lemma BadgeAgreesWithMissingList(status: Status)
    ensures PresenceBadge(status) == "All Sheets" <==> |MissingFrom(status)| == 0
    ensures PresenceBadge(status) == "2 Sheets" <==> |MissingFrom(status)| == 1
    ensures PresenceBadge(status) == "1 Sheet Only" <==> |MissingFrom(status)| == 2
    ensures PresenceBadge(status) == "None" <==> |MissingFrom(status)| == 3
  {
  }

  /** No row of a comparison gets the "None" badge: every AWB comes from some source. */
  lemma ComparisonRowsHaveSomeSource(data: ParsedExcelData, i: nat)
    requires i < |CE.EngineRows(data)|
    ensures PresenceBadge(CE.EngineRows(data)[i].status) != "None"
    ensures |MissingFrom(CE.EngineRows(data)[i].status)| <= 2
  {
    EP.PresenceMatchesSources(data, i);
  }

  /** On an engine row, the missing list names exactly the sources its "Missing in" tags name. */
  lemma MissingListMatchesTags(row: ComparisonRow)
    requires CE.IsEngineRow(row)
    ensures Jaster in MissingFrom(row.status) <==> CE.MissingInJaster in row.discrepancies
    ensures Cis in MissingFrom(row.status) <==> CE.MissingInCis in row.discrepancies
    ensures Unifikasi in MissingFrom(row.status) <==> CE.MissingInUnifikasi in row.discrepancies
  {
    EP.DiscrepancyTags(row);
  }
}
