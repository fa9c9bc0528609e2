/**
 * What the comparison produced by `ComparisonEngine.CompareSheets` means:
 * one row per AWB in first-appearance order, last-record weights, the
 * tolerance test relative to the first present weight, the discrepancy tags
 * and the agreement of the counters with the rows.
 */
module EngineProperties {
  import opened Wrappers
  import opened Seqs
  import opened Types
  import opened ComparisonEngine

  /** Every AWB of every record: JASTER first, then CIS, then UNIFIKASI. */
  function RecordAwbs(data: ParsedExcelData): seq<string> {
    Awbs(data.jaster) + Awbs(data.cis) + Awbs(data.unifikasi)
  }

  // ---------------------------------------------------------------------------
  // The rows and the AWBs

  /** The union of the three key sets is the distinct AWBs of all records, in order of first appearance. */
  lemma AllAwbsIsDistinctRecordAwbs(data: ParsedExcelData)
    ensures AllAwbs(data) == Dedup(RecordAwbs(data))
  {
    DedupOfThree(Awbs(data.jaster), Awbs(data.cis), Awbs(data.unifikasi));
  }

  /** Exactly one row per AWB that occurs in any source, and no other row. */
  lemma OneRowPerAwb(data: ParsedExcelData)
    ensures var rows := EngineRows(data);
      (forall i, j :: 0 <= i < j < |rows| ==> rows[i].awb != rows[j].awb)
      && (forall awb :: (exists i :: 0 <= i < |rows| && rows[i].awb == awb) <==> awb in RecordAwbs(data))
  {
    var rows, awbs := EngineRows(data), AllAwbs(data);
    AllAwbsIsDistinctRecordAwbs(data);
    assert forall i :: 0 <= i < |rows| ==> rows[i].awb == awbs[i];
    forall awb
      ensures (exists i :: 0 <= i < |rows| && rows[i].awb == awb) <==> awb in RecordAwbs(data)
    {
      if awb in RecordAwbs(data) {
        assert awb in awbs;
        var i :| 0 <= i < |awbs| && awbs[i] == awb;
        assert rows[i].awb == awb;
      }
    }
  }

  /** The rows come in the order in which their AWBs first appear across JASTER, CIS, UNIFIKASI. */
  lemma RowsInFirstAppearanceOrder(data: ParsedExcelData)
    ensures var rows, all := EngineRows(data), RecordAwbs(data);
      forall i, j :: 0 <= i < j < |rows| ==>
        rows[i].awb in all && rows[j].awb in all && FirstIndex(all, rows[i].awb) < FirstIndex(all, rows[j].awb)
  {
    var rows, all := EngineRows(data), RecordAwbs(data);
    AllAwbsIsDistinctRecordAwbs(data);
    DedupFirstAppearance(all);
    assert forall i :: 0 <= i < |rows| ==> rows[i].awb == Dedup(all)[i];
  }

  /** A row's presence flags say which sources hold its AWB, and agree with the weights being non-null. */
  lemma PresenceMatchesSources(data: ParsedExcelData, i: nat)
    requires i < |EngineRows(data)|
    ensures var row := EngineRows(data)[i];
      (row.status.inJaster <==> row.awb in Awbs(data.jaster))
      && (row.status.inCis <==> row.awb in Awbs(data.cis))
      && (row.status.inUnifikasi <==> row.awb in Awbs(data.unifikasi))
      && (row.status.inJaster <==> row.jasterWeight.Some?)
      && (row.status.inCis <==> row.cisWeight.Some?)
      && (row.status.inUnifikasi <==> row.unifikasiWeight.Some?)
      && PresenceCount(row.status) >= 1
  {
    var awb := AllAwbs(data)[i];
    assert awb in Dedup(Awbs(data.jaster)) + Dedup(Awbs(data.cis)) + Dedup(Awbs(data.unifikasi));
  }

  /** A row's JASTER weight is the weight of the last JASTER record with its AWB (last wins). */
  lemma JasterWeightIsLastRecord(data: ParsedExcelData, i: nat, k: nat)
    requires i < |EngineRows(data)|
    requires k < |data.jaster| && data.jaster[k].awb == EngineRows(data)[i].awb
    requires forall j :: k < j < |data.jaster| ==> data.jaster[j].awb != EngineRows(data)[i].awb
    ensures EngineRows(data)[i].jasterWeight == Some(data.jaster[k].weight)
  {
    LastWeightIsLastRecord(data.jaster, EngineRows(data)[i].awb, k);
  }

  /** A row's CIS weight is the weight of the last CIS record with its AWB (last wins). */
  lemma CisWeightIsLastRecord(data: ParsedExcelData, i: nat, k: nat)
    requires i < |EngineRows(data)|
    requires k < |data.cis| && data.cis[k].awb == EngineRows(data)[i].awb
    requires forall j :: k < j < |data.cis| ==> data.cis[j].awb != EngineRows(data)[i].awb
    ensures EngineRows(data)[i].cisWeight == Some(data.cis[k].weight)
  {
    LastWeightIsLastRecord(data.cis, EngineRows(data)[i].awb, k);
  }

  /** A row's UNIFIKASI weight is the weight of the last UNIFIKASI record with its AWB (last wins). */
  lemma UnifikasiWeightIsLastRecord(data: ParsedExcelData, i: nat, k: nat)
    requires i < |EngineRows(data)|
    requires k < |data.unifikasi| && data.unifikasi[k].awb == EngineRows(data)[i].awb
    requires forall j :: k < j < |data.unifikasi| ==> data.unifikasi[j].awb != EngineRows(data)[i].awb
    ensures EngineRows(data)[i].unifikasiWeight == Some(data.unifikasi[k].weight)
  {
    LastWeightIsLastRecord(data.unifikasi, EngineRows(data)[i].awb, k);
  }

  /** No row is ever flagged as duplicated. */
  lemma NoRowHasDuplicates(data: ParsedExcelData)
    ensures forall i :: 0 <= i < |EngineRows(data)| ==> !EngineRows(data)[i].hasDuplicates && IsEngineRow(EngineRows(data)[i])
  {
  }

  // ---------------------------------------------------------------------------
  // The tolerance test

  /** The weight the others are compared with: the first non-null one in JASTER, CIS, UNIFIKASI order. */
  function FirstPresentWeight(jaster: Option<real>, cis: Option<real>, unifikasi: Option<real>): real {
    if jaster.Some? then jaster.value else if cis.Some? then cis.value else if unifikasi.Some? then unifikasi.value else 0.0
  }

  predicate Within(reference: real, w: Option<real>) {
    w.None? || Abs(w.value - reference) < WeightMatchThreshold
  }

  /** Weights match iff at most one is present, or every present one is strictly within 0.01 of the first present one. */
  lemma WeightMatchIsFirstWeightTolerance(jaster: Option<real>, cis: Option<real>, unifikasi: Option<real>)
    ensures var first := FirstPresentWeight(jaster, cis, unifikasi);
      WeightsMatch(PresentWeights(jaster, cis, unifikasi))
      <==> PresenceCount(StatusOf(jaster, cis, unifikasi)) <= 1
           || (Within(first, jaster) && Within(first, cis) && Within(first, unifikasi))
  {
    var ws := PresentWeights(jaster, cis, unifikasi);
    var first := FirstPresentWeight(jaster, cis, unifikasi);
    assert |ws| == PresenceCount(StatusOf(jaster, cis, unifikasi));
    assert forall w :: w in ws <==> (jaster == Some(w) || cis == Some(w) || unifikasi == Some(w));
    if |ws| > 0 {
      assert ws[0] == first;
    }
  }

  /** The tolerance is strict: a difference of exactly 0.01 is a mismatch. */
  lemma ToleranceIsStrict()
    ensures ExpectedRow("A", Some(10.0), Some(10.009), None).weightMatch
    ensures !ExpectedRow("A", Some(10.0), Some(10.01), None).weightMatch
  {
    assert PresentWeights(Some(10.0), Some(10.009), None) == [10.0, 10.009];
    var ws := PresentWeights(Some(10.0), Some(10.01), None);
    assert ws == [10.0, 10.01];
    assert ws[1] in ws && Abs(ws[1] - ws[0]) == WeightMatchThreshold;
  }

  /** Comparing with the first weight is not comparing every pair: two weights 0.018 apart can still match. */
  lemma MatchIsRelativeToFirstWeight()
    ensures ExpectedRow("A", Some(10.0), Some(10.009), Some(9.991)).weightMatch
    ensures Abs(10.009 - 9.991) >= WeightMatchThreshold
  {
    assert PresentWeights(Some(10.0), Some(10.009), Some(9.991)) == [10.0, 10.009, 9.991];
  }

  // ---------------------------------------------------------------------------
  // The discrepancy tags

  /** Whether the tag `t` describes a row with these flags. */
  predicate TagApplies(status: Status, weightMatch: bool, weightCount: nat, t: string) {
    (t == MissingInJaster && !status.inJaster)
    || (t == MissingInCis && !status.inCis)
    || (t == MissingInUnifikasi && !status.inUnifikasi)
    || (t == WeightMismatch && !weightMatch && weightCount > 1)
  }

  function ApplicableTag(status: Status, weightMatch: bool, weightCount: nat): string -> bool {
    t => TagApplies(status, weightMatch, weightCount, t)
  }

  /** The four tags are distinct, so each applies under its own condition only. */
  lemma ApplicableTagValues(status: Status, weightMatch: bool, weightCount: nat)
    ensures ApplicableTag(status, weightMatch, weightCount)(MissingInJaster) == !status.inJaster
    ensures ApplicableTag(status, weightMatch, weightCount)(MissingInCis) == !status.inCis
    ensures ApplicableTag(status, weightMatch, weightCount)(MissingInUnifikasi) == !status.inUnifikasi
    ensures ApplicableTag(status, weightMatch, weightCount)(WeightMismatch) == (!weightMatch && weightCount > 1)
  {
    assert |MissingInJaster| == 17 && |MissingInCis| == 14 && |MissingInUnifikasi| == 20 && |WeightMismatch| == 15;
  }

  /** The tags are exactly those of `AllTags` that apply, in `AllTags` order. */
  lemma {:induction false} DiscrepanciesAreApplicableTags(status: Status, weightMatch: bool, weightCount: nat)
    ensures Discrepancies(status, weightMatch, weightCount) == Filter(AllTags, ApplicableTag(status, weightMatch, weightCount))
  {
    ApplicableTagValues(status, weightMatch, weightCount);
    FilterOfFour(MissingInJaster, MissingInCis, MissingInUnifikasi, WeightMismatch, ApplicableTag(status, weightMatch, weightCount));
  }

  /** Each tag is pushed under its own condition only: the four tags are distinct. */
  lemma TagMembership(status: Status, weightMatch: bool, weightCount: nat)
    ensures var d := Discrepancies(status, weightMatch, weightCount);
      && (MissingInJaster in d <==> !status.inJaster)
      && (MissingInCis in d <==> !status.inCis)
      && (MissingInUnifikasi in d <==> !status.inUnifikasi)
      && (WeightMismatch in d <==> !weightMatch && weightCount > 1)
      && (d == [] <==> status.inJaster && status.inCis && status.inUnifikasi && !(!weightMatch && weightCount > 1))
  {
    assert |MissingInJaster| == 17 && |MissingInCis| == 14 && |MissingInUnifikasi| == 20 && |WeightMismatch| == 15;
  }

  /**
   * On an engine row: a source's "missing" tag is present iff the source lacks
   * the AWB, the mismatch tag iff the weights do not match, and there is no
   * tag at all iff all three hold the AWB and the weights match.
   */
  lemma DiscrepancyTags(row: ComparisonRow)
    requires IsEngineRow(row)
    ensures MissingInJaster in row.discrepancies <==> !row.status.inJaster
    ensures MissingInCis in row.discrepancies <==> !row.status.inCis
    ensures MissingInUnifikasi in row.discrepancies <==> !row.status.inUnifikasi
    ensures WeightMismatch in row.discrepancies <==> !row.weightMatch
    ensures row.discrepancies == [] <==> PresenceCount(row.status) == 3 && row.weightMatch
  {
    var ws := PresentWeights(row.jasterWeight, row.cisWeight, row.unifikasiWeight);
    assert |ws| == PresenceCount(row.status);
    assert !row.weightMatch ==> |ws| > 1;
    assert row.discrepancies == Discrepancies(row.status, row.weightMatch, |ws|);
    TagMembership(row.status, row.weightMatch, |ws|);
  }

  /** An AWB only CIS holds: two "missing" tags, no mismatch. */
  lemma CisOnlyRow()
    ensures ExpectedRow("B", None, Some(3.0), None).discrepancies == [MissingInJaster, MissingInUnifikasi]
    ensures ExpectedRow("B", None, Some(3.0), None).weightMatch
  {
  }

  /** A repeated AWB within a source keeps the later weight. */
  lemma LastRecordWins()
    ensures LastWeight([SheetData("A", 10.0), SheetData("A", 20.0)], "A") == Some(20.0)
  {
    LastWeightIsLastRecord([SheetData("A", 10.0), SheetData("A", 20.0)], "A", 1);
  }

  // ---------------------------------------------------------------------------
  // The counters

  /** Rows flagged "Weight mismatch". */
  predicate IsFlaggedMismatch(row: ComparisonRow) {
    WeightMismatch in row.discrepancies
  }

  /** Rows with no discrepancy at all: those the issues-only export leaves out. */
  predicate IsClean(row: ComparisonRow) {
    row.discrepancies == []
  }

  lemma {:induction false} CountZero(rows: seq<ComparisonRow>, p: Presence)
    requires forall i :: 0 <= i < |rows| ==> PresenceOf(rows[i].status) != p
    ensures CountPresence(rows, p) == 0
  {
    if rows != [] {
      CountZero(rows[..|rows| - 1], p);
    }
  }

  /** The eight presence buckets partition the rows. */
  lemma {:induction false} PresenceBucketsPartition(rows: seq<ComparisonRow>)
    ensures CountPresence(rows, AllThree) + CountPresence(rows, JasterAndCis) + CountPresence(rows, JasterAndUnifikasi)
      + CountPresence(rows, CisAndUnifikasi) + CountPresence(rows, JasterOnly) + CountPresence(rows, CisOnly)
      + CountPresence(rows, UnifikasiOnly) + CountPresence(rows, NoSource) == |rows|
  {
    if rows != [] {
      PresenceBucketsPartition(rows[..|rows| - 1]);
    }
  }

  /** The rows with presence pattern `p`. */
  function HasPresence(p: Presence): ComparisonRow -> bool {
    (row: ComparisonRow) => PresenceOf(row.status) == p
  }

  /** Each presence counter is the number of rows with that pattern. */
  lemma {:induction false} CountPresenceIsFilter(rows: seq<ComparisonRow>, p: Presence)
    ensures CountPresence(rows, p) == |Filter(rows, HasPresence(p))|
  {
    if rows != [] {
      var prefix, last := rows[..|rows| - 1], rows[|rows| - 1];
      CountPresenceIsFilter(prefix, p);
      SplitLast(rows);
      FilterSnoc(prefix, last, HasPresence(p));
    }
  }

  /** The seven presence counters of a comparison add up to the number of distinct AWBs. */
  lemma StatsBucketsCoverAllAwbs(data: ParsedExcelData)
    ensures var s := StatsOf(EngineRows(data));
      s.inAllThree + s.inJasterAndCis + s.inJasterAndUnifikasi + s.inCisAndUnifikasi
      + s.inJasterOnly + s.inCisOnly + s.inUnifikasiOnly == s.totalUniqueAwbs
  {
    var rows := EngineRows(data);
    forall i | 0 <= i < |rows|
      ensures PresenceOf(rows[i].status) != NoSource
    {
      PresenceMatchesSources(data, i);
    }
    CountZero(rows, NoSource);
    PresenceBucketsPartition(rows);
  }

  /** An engine row is counted as a mismatch iff it carries the mismatch tag, and as perfect iff it carries no tag. */
  lemma CountedAsTagged(row: ComparisonRow)
    requires IsEngineRow(row)
    ensures IsFlaggedMismatch(row) <==> PresenceCount(row.status) >= 2 && !row.weightMatch
    ensures IsClean(row) <==> PresenceCount(row.status) == 3 && row.weightMatch
  {
    DiscrepancyTags(row);
    assert |PresentWeights(row.jasterWeight, row.cisWeight, row.unifikasiWeight)| == PresenceCount(row.status);
  }

  /** The mismatch counter counts the flagged rows of any rows flagged exactly when they count as mismatches. */
  lemma {:induction false} CountMismatchIsFlagged(rows: seq<ComparisonRow>)
    requires forall i :: 0 <= i < |rows| ==> (IsFlaggedMismatch(rows[i]) <==> PresenceCount(rows[i].status) >= 2 && !rows[i].weightMatch)
    ensures CountMismatch(rows) == |Filter(rows, IsFlaggedMismatch)|
  {
    if rows != [] {
      var prefix, last := rows[..|rows| - 1], rows[|rows| - 1];
      assert forall i :: 0 <= i < |prefix| ==> prefix[i] == rows[i];
      CountMismatchIsFlagged(prefix);
      SplitLast(rows);
      FilterSnoc(prefix, last, IsFlaggedMismatch);
    }
  }

  /** Among engine rows, the mismatch counter counts exactly the rows tagged "Weight mismatch". */
  lemma MismatchesAreFlaggedRows(rows: seq<ComparisonRow>)
    requires forall i :: 0 <= i < |rows| ==> IsEngineRow(rows[i])
    ensures CountMismatch(rows) == |Filter(rows, IsFlaggedMismatch)|
  {
    forall i | 0 <= i < |rows|
      ensures IsFlaggedMismatch(rows[i]) <==> PresenceCount(rows[i].status) >= 2 && !rows[i].weightMatch
    {
      CountedAsTagged(rows[i]);
    }
    CountMismatchIsFlagged(rows);
  }

  /** The perfect-match counter counts the clean rows of any rows clean exactly when they count as perfect. */
  lemma {:induction false} CountPerfectIsClean(rows: seq<ComparisonRow>)
    requires forall i :: 0 <= i < |rows| ==> (IsClean(rows[i]) <==> PresenceCount(rows[i].status) == 3 && rows[i].weightMatch)
    ensures CountPerfect(rows) == |Filter(rows, IsClean)|
  {
    if rows != [] {
      var prefix, last := rows[..|rows| - 1], rows[|rows| - 1];
      assert forall i :: 0 <= i < |prefix| ==> prefix[i] == rows[i];
      CountPerfectIsClean(prefix);
      SplitLast(rows);
      FilterSnoc(prefix, last, IsClean);
    }
  }

  /** Among engine rows, the perfect-match counter counts exactly the rows with no discrepancy. */
  lemma PerfectMatchesAreCleanRows(rows: seq<ComparisonRow>)
    requires forall i :: 0 <= i < |rows| ==> IsEngineRow(rows[i])
    ensures CountPerfect(rows) == |Filter(rows, IsClean)|
  {
    forall i | 0 <= i < |rows|
      ensures IsClean(rows[i]) <==> PresenceCount(rows[i].status) == 3 && rows[i].weightMatch
    {
      CountedAsTagged(rows[i]);
    }
    CountPerfectIsClean(rows);
  }

  /** Perfect matches are a subset of the rows present in all three sources. */
  lemma {:induction false} PerfectAtMostAllThree(rows: seq<ComparisonRow>)
    ensures CountPerfect(rows) <= CountPresence(rows, AllThree)
  {
    if rows != [] {
      PerfectAtMostAllThree(rows[..|rows| - 1]);
    }
  }

  /** The counters of a whole comparison, restated against its rows. */
  lemma ComparisonStatsMeaning(data: ParsedExcelData)
    ensures var rows := EngineRows(data); var s := StatsOf(rows);
      s.totalUniqueAwbs == |AllAwbs(data)|
      && s.weightMismatches == |Filter(rows, IsFlaggedMismatch)|
      && s.perfectMatches == |Filter(rows, IsClean)|
      && s.perfectMatches <= s.inAllThree
  {
    var rows := EngineRows(data);
    NoRowHasDuplicates(data);
    MismatchesAreFlaggedRows(rows);
    PerfectMatchesAreCleanRows(rows);
    PerfectAtMostAllThree(rows);
  }
}
