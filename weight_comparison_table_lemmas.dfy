/**
 * What the weight table's status badge, difference column and cell
 * highlighting show, and how they relate to the engine's tolerance test.
 */
module WeightTableProperties {
  import opened Wrappers
  import opened Types
  import opened WeightComparisonTable
  import TF = TableFilters
  import CE = ComparisonEngine
  import EP = EngineProperties

  // ---------------------------------------------------------------------------
  // The weight status

  /** Each status holds exactly in its case. */
  lemma WeightStatusCases(row: ComparisonRow)
    ensures var hasAll := row.jasterWeight.Some? && row.cisWeight.Some? && row.unifikasiWeight.Some?;
      && (WeightStatusOf(row) == Match <==> hasAll && row.weightMatch)
      && (WeightStatusOf(row) == Mismatch <==> hasAll && !row.weightMatch)
      && (WeightStatusOf(row) == Incomplete <==> !hasAll)
  {
  }

  /**
   * The badge is the hook's filter verdict: "Match" rows are the `perfect` rows
   * and "Incomplete" rows the `missing` rows.
   */
  lemma WeightStatusAgreesWithHookFilters(row: ComparisonRow)
    ensures WeightStatusOf(row) == Match <==> TF.KeepsRow(TF.Perfect, row)
    ensures WeightStatusOf(row) == Incomplete <==> TF.KeepsRow(TF.Missing, row)
  {
  }

  /** On an engine row: "Match" iff no discrepancy, "Mismatch" iff in all three and tagged, "Incomplete" iff some source is missing. */
  lemma WeightStatusOnEngineRow(row: ComparisonRow)
    requires CE.IsEngineRow(row)
    ensures WeightStatusOf(row) == Match <==> EP.IsClean(row)
    ensures WeightStatusOf(row) == Mismatch <==> CE.PresenceCount(row.status) == 3 && EP.IsFlaggedMismatch(row)
    ensures WeightStatusOf(row) == Incomplete
      <==> CE.MissingInJaster in row.discrepancies || CE.MissingInCis in row.discrepancies || CE.MissingInUnifikasi in row.discrepancies
  {
    EP.DiscrepancyTags(row);
    EP.CountedAsTagged(row);
  }

  // ---------------------------------------------------------------------------
  // The difference column

  /** `maxDiff` is the largest present weight minus the smallest when two or more are present, and 0 otherwise. */
  lemma MaxDiffIsSpread(row: ComparisonRow)
    ensures var ws := CE.PresentWeights(row.jasterWeight, row.cisWeight, row.unifikasiWeight);
      && (|ws| <= 1 ==> MaxDiff(row) == 0.0)
      && (|ws| > 1 ==> exists hi, lo :: hi in ws && lo in ws && MaxDiff(row) == hi - lo
                                        && forall w :: w in ws ==> lo <= w <= hi)
  {
    var ws := CE.PresentWeights(row.jasterWeight, row.cisWeight, row.unifikasiWeight);
    if |ws| > 1 {
      var hi, lo := MaxOf(ws), MinOf(ws);
      assert MaxDiff(row) == hi - lo;
    }
  }

  /** A difference is shown iff two present weights differ. */
  lemma DifferenceShownIffWeightsDiffer(row: ComparisonRow)
    ensures var ws := CE.PresentWeights(row.jasterWeight, row.cisWeight, row.unifikasiWeight);
      DifferenceCell(row).Some? <==> exists v, w :: v in ws && w in ws && v != w
  {
    var ws := CE.PresentWeights(row.jasterWeight, row.cisWeight, row.unifikasiWeight);
    if |ws| > 1 {
      var hi, lo := MaxOf(ws), MinOf(ws);
      if exists v, w :: v in ws && w in ws && v != w {
        var v, w :| v in ws && w in ws && v != w;
        assert lo <= v <= hi && lo <= w <= hi;
      }
    } else if |ws| == 1 {
      assert forall v :: v in ws ==> v == ws[0];
    }
  }

  /** On an engine row whose weights do not match, the spread is at least the tolerance, so a difference is shown. */
  lemma MismatchShowsDifference(row: ComparisonRow)
    requires CE.IsEngineRow(row) && !row.weightMatch
    ensures MaxDiff(row) >= WeightMatchThreshold && DifferenceCell(row).Some?
  {
    var ws := CE.PresentWeights(row.jasterWeight, row.cisWeight, row.unifikasiWeight);
    assert !CE.WeightsMatch(ws);
    var w :| w in ws && CE.Abs(w - ws[0]) >= WeightMatchThreshold;
    var hi, lo := MaxOf(ws), MinOf(ws);
    assert ws[0] in ws;
    assert lo <= w <= hi && lo <= ws[0] <= hi;
  }

  /** On an engine row whose weights match, the spread stays below twice the tolerance. */
  lemma MatchBoundsDifference(row: ComparisonRow)
    requires CE.IsEngineRow(row) && row.weightMatch
    ensures MaxDiff(row) < 2.0 * WeightMatchThreshold
  {
    var ws := CE.PresentWeights(row.jasterWeight, row.cisWeight, row.unifikasiWeight);
    if |ws| > 1 {
      assert CE.WeightsMatch(ws);
      var hi, lo := MaxOf(ws), MinOf(ws);
      assert CE.Abs(hi - ws[0]) < WeightMatchThreshold && CE.Abs(lo - ws[0]) < WeightMatchThreshold;
    }
  }

  /**
   * A row can be badged "Match" and still show a difference above the
   * tolerance, because the engine compares each weight with the first one
   * only: 10.009 and 9.991 are both within 0.01 of 10.0 but 0.018 apart.
   */
  lemma MatchWithDifferenceAboveTolerance()
    ensures var row := CE.ExpectedRow("A", Some(10.0), Some(10.009), Some(9.991));
      WeightStatusOf(row) == Match && DifferenceCell(row) == Some(0.018) && 0.018 > WeightMatchThreshold
  {
    var row := CE.ExpectedRow("A", Some(10.0), Some(10.009), Some(9.991));
    var ws := CE.PresentWeights(Some(10.0), Some(10.009), Some(9.991));
    assert ws == [10.0, 10.009, 9.991];
    assert CE.WeightsMatch(ws) by {
      assert forall w :: w in ws ==> w == 10.0 || w == 10.009 || w == 9.991;
    }
    assert MaxOf([10.009, 9.991]) == 10.009;
    assert MinOf([10.009, 9.991]) == 9.991;
    assert [10.0, 10.009, 9.991][1..] == [10.009, 9.991];
  }

  // ---------------------------------------------------------------------------
  // Highlighting

  /** A weight cell is highlighted exactly when its weight is present and the row's weights do not match. */
  lemma CellHighlightRule(w: Option<real>, weightMatch: bool)
    ensures WeightCellOf(w, weightMatch).Shown? <==> w.Some?
    ensures WeightCellOf(w, weightMatch).Shown? ==> WeightCellOf(w, weightMatch).weight == w.value
    ensures WeightCellOf(w, weightMatch).Shown? && WeightCellOf(w, weightMatch).highlighted <==> w.Some? && !weightMatch
  {
  }

  /** On an engine row, some weight cell is highlighted iff the row is tagged "Weight mismatch". */
  lemma HighlightIffFlagged(row: ComparisonRow)
    requires CE.IsEngineRow(row)
    ensures (exists i :: 0 <= i < 3 && Cells(row)[i].Shown? && Cells(row)[i].highlighted) <==> EP.IsFlaggedMismatch(row)
  {
    EP.CountedAsTagged(row);
    assert |CE.PresentWeights(row.jasterWeight, row.cisWeight, row.unifikasiWeight)| == CE.PresenceCount(row.status);
    if EP.IsFlaggedMismatch(row) {
      if row.jasterWeight.Some? {
        assert Cells(row)[0].Shown? && Cells(row)[0].highlighted;
      } else {
        assert Cells(row)[1].Shown? && Cells(row)[1].highlighted;
      }
    }
  }
}
