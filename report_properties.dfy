/**
 * The exported report of a comparison, stated end to end: what the three
 * sheets hold for the result `compareSheets` produces.
 */
module ReportProperties {
  import opened Wrappers
  import opened Seqs
  import opened Types
  import opened ExportUtils
  import CE = ComparisonEngine
  import EP = EngineProperties

  /** The issues-only sheet holds one record per AWB that is not a perfect match. */
  lemma IssuesSheetSize(data: ParsedExcelData)
    ensures var rows := CE.EngineRows(data); var s := CE.StatsOf(rows);
      |MismatchData(rows)| == s.totalUniqueAwbs - s.perfectMatches
  {
    var rows := CE.EngineRows(data);
    IssueRowsSplit(rows);
    EP.ComparisonStatsMeaning(data);
    FilterCongruent(rows, NoIssuesFilter(), EP.IsClean);
  }

  /** The tags of an engine row, joined, start with a "Missing in" or "Weight mismatch" tag and so are never "None". */
  lemma EngineIssuesNeverNone(row: ComparisonRow)
    requires CE.IsEngineRow(row) && row.discrepancies != []
    ensures Join(row.discrepancies, ", ") != "None"
  {
    var d := row.discrepancies;
    assert d[0] == CE.MissingInJaster || d[0] == CE.MissingInCis || d[0] == CE.MissingInUnifikasi || d[0] == CE.WeightMismatch;
    JoinStartsWithFirst(d, ", ");
    assert Join(d, ", ")[0] == d[0][0];
    assert "None"[0] == 'N';
  }

  /** On engine rows, each issues-only record is a row with tags, and its "Issues" field is the joined tags, never "None". */
  lemma IssueRecordsOfEngineRows(rows: seq<ComparisonRow>)
    requires forall i :: 0 <= i < |rows| ==> CE.IsEngineRow(rows[i])
    ensures var kept := IssueRows(rows); var m := MismatchData(rows);
      && |m| == |kept|
      && forall i :: 0 <= i < |m| ==>
           && kept[i] in rows && kept[i].discrepancies != []
           && m[i][4] == Field("Issues", Text(Join(kept[i].discrepancies, ", ")))
           && Join(kept[i].discrepancies, ", ") != "None"
  {
    var kept := IssueRows(rows);
    forall i | 0 <= i < |kept|
      ensures kept[i] in rows && kept[i].discrepancies != [] && Join(kept[i].discrepancies, ", ") != "None"
    {
      assert kept[i] in kept;
      assert HasIssuesFilter()(kept[i]);
      var j :| 0 <= j < |rows| && rows[j] == kept[i];
      EngineIssuesNeverNone(rows[j]);
    }
  }

  /** The same for the rows of a comparison. */
  lemma IssuesSheetNeverNone(data: ParsedExcelData)
    ensures var rows := CE.EngineRows(data); var kept := IssueRows(rows); var m := MismatchData(rows);
      && |m| == |kept|
      && forall i :: 0 <= i < |m| ==>
           && kept[i] in rows
           && m[i][4] == Field("Issues", Text(Join(kept[i].discrepancies, ", ")))
           && Join(kept[i].discrepancies, ", ") != "None"
  {
    EP.NoRowHasDuplicates(data);
    IssueRecordsOfEngineRows(CE.EngineRows(data));
  }

  /**
   * The report of a comparison: the Summary, Detailed Comparison and Issues
   * Only sheets in that order; the summary reads back as the comparison's
   * statistics, the detailed sheet has one record per AWB, and the issues
   * sheet one per AWB with a discrepancy.
   */
  lemma ReportOfComparison(data: ParsedExcelData, timestamp: string, generated: string)
    ensures var rows := CE.EngineRows(data);
      var result := ComparisonResult(rows, CE.StatsOf(rows), timestamp);
      var wb := ExportWorkbook(result, generated);
      && |wb| == 3
      && wb[0].name == "Summary" && wb[1].name == "Detailed Comparison" && wb[2].name == "Issues Only"
      && wb[0].content.Cells? && ReadSummary(wb[0].content.rows) == Some(result.stats)
      && wb[1].content.Records? && |wb[1].content.records| == result.stats.totalUniqueAwbs
      && wb[2].content.Records? && |wb[2].content.records| == result.stats.totalUniqueAwbs - result.stats.perfectMatches
  {
    var rows := CE.EngineRows(data);
    var result := ComparisonResult(rows, CE.StatsOf(rows), timestamp);
    SummaryRoundTrip(result.stats, generated);
    DetailedSheetOnePerRow(rows);
    IssuesSheetSize(data);
  }
}
