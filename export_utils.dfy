/**
 * The report export: the summary sheet (an array of arrays), the detailed
 * sheet (one record per comparison row) and the issues-only sheet (one
 * record per row with a discrepancy), appended in that order.
 *
 * A record is the ordered list of `(header, value)` pairs of the JavaScript
 * object handed to `json_to_sheet`; the spreadsheet encoding itself is not
 * part of this model.
 */
module ExportUtils {
  import opened Wrappers
  import opened Seqs
  import opened Types

  /** One property of an exported record. */
  datatype Field = Field(header: string, value: Value)

  /** The content of one sheet: rows of cells, or records. */
  datatype SheetContent = Cells(rows: seq<seq<Value>>) | Records(records: seq<seq<Field>>)

  datatype NamedSheet = NamedSheet(name: string, content: SheetContent)

  const NoWeight: string := "—"

  // ---------------------------------------------------------------------------
  // Cell rendering

  /** `weight ?? "—"`. */
  function WeightCell(w: Option<real>): Value {
    if w.Some? then Number(w.value) else Text(NoWeight)
  }

  /** `flag ? "Yes" : "No"`. */
  function YesNo(b: bool): Value {
    if b then Text("Yes") else Text("No")
  }

  /** `discrepancies.join(", ") || "None"`. */
  function IssuesText(discrepancies: seq<string>): string {
    var joined := Join(discrepancies, ", ");
    if joined == "" then "None" else joined
  }

  function Count(n: nat): Value {
    Number(n as real)
  }

  // ---------------------------------------------------------------------------
  // The three sheets

  /** `summaryData`: sixteen rows, the counters interleaved with headings and blank rows. */
  function SummaryData(stats: ComparisonStats, generated: string): seq<seq<Value>> {
    [ [Text("Excel Comparison Report")],
      [Text("Generated:"), Text(generated)],
      [Text("")],
      [Text("Summary Statistics")],
      [Text("Total Unique AWBs"), Count(stats.totalUniqueAwbs)],
      [Text("Perfect Matches"), Count(stats.perfectMatches)],
      [Text("Weight Mismatches"), Count(stats.weightMismatches)],
      [Text("In All Three Sheets"), Count(stats.inAllThree)],
      [Text("")],
      [Text("Distribution")],
      [Text("JASTER Only"), Count(stats.inJasterOnly)],
      [Text("CIS Only"), Count(stats.inCisOnly)],
      [Text("UNIFIKASI Only"), Count(stats.inUnifikasiOnly)],
      [Text("JASTER & CIS"), Count(stats.inJasterAndCis)],
      [Text("JASTER & UNIFIKASI"), Count(stats.inJasterAndUnifikasi)],
      [Text("CIS & UNIFIKASI"), Count(stats.inCisAndUnifikasi)] ]
  }

  /** One element of `detailedData`. */
  function DetailedRecord(row: ComparisonRow): seq<Field> {
    [ Field("AWB Number", Text(row.awb)),
      Field("JASTER Weight", WeightCell(row.jasterWeight)),
      Field("CIS Weight", WeightCell(row.cisWeight)),
      Field("UNIFIKASI Weight", WeightCell(row.unifikasiWeight)),
      Field("In JASTER", YesNo(row.status.inJaster)),
      Field("In CIS", YesNo(row.status.inCis)),
      Field("In UNIFIKASI", YesNo(row.status.inUnifikasi)),
      Field("Weight Match", YesNo(row.weightMatch)),
      Field("Issues", Text(IssuesText(row.discrepancies))) ]
  }

  /** One element of `mismatchData`: no presence columns, and the tags joined without a "None" fallback. */
  function IssueRecord(row: ComparisonRow): seq<Field> {
    [ Field("AWB Number", Text(row.awb)),
      Field("JASTER Weight", WeightCell(row.jasterWeight)),
      Field("CIS Weight", WeightCell(row.cisWeight)),
      Field("UNIFIKASI Weight", WeightCell(row.unifikasiWeight)),
      Field("Issues", Text(Join(row.discrepancies, ", "))) ]
  }

  /** `result.rows.map(...)`. */
  function DetailedData(rows: seq<ComparisonRow>): seq<seq<Field>> {
    seq(|rows|, i requires 0 <= i < |rows| => DetailedRecord(rows[i]))
  }

  predicate HasIssues(row: ComparisonRow) {
    |row.discrepancies| > 0
  }

  function HasIssuesFilter(): ComparisonRow -> bool {
    row => HasIssues(row)
  }

  /** The rows that go to the issues-only sheet. */
  function IssueRows(rows: seq<ComparisonRow>): seq<ComparisonRow> {
    Filter(rows, HasIssuesFilter())
  }

  /** `result.rows.filter((row) => row.discrepancies.length > 0).map(...)`. */
  function MismatchData(rows: seq<ComparisonRow>): seq<seq<Field>> {
    var kept := IssueRows(rows);
    seq(|kept|, i requires 0 <= i < |kept| => IssueRecord(kept[i]))
  }

  /** The sheets `exportToExcel` appends, in append order; `generated` is the timestamp as rendered. */
  function ExportWorkbook(result: ComparisonResult, generated: string): seq<NamedSheet> {
    [ NamedSheet("Summary", Cells(SummaryData(result.stats, generated))),
      NamedSheet("Detailed Comparison", Records(DetailedData(result.rows))),
      NamedSheet("Issues Only", Records(MismatchData(result.rows))) ]
  }

  // ---------------------------------------------------------------------------
  // Reading the report back

  /** The count in row `k` of a summary, provided the row is `[heading, whole number]`. */
  function CountAt(summary: seq<seq<Value>>, k: nat, heading: string): (n: Option<nat>)
    ensures n.Some? ==> k < |summary| && summary[k] == [Text(heading), Count(n.value)]
  {
    if k < |summary| && |summary[k]| == 2 && summary[k][0] == Text(heading) && summary[k][1].Number?
       && summary[k][1].number >= 0.0 && summary[k][1].number == summary[k][1].number.Floor as real then
      var n: nat := summary[k][1].number.Floor;
      assert summary[k] == [Text(heading), Count(n)];
      Some(n)
    else None
  }

  /** Recovers the counters from a sixteen-row summary, each from its labelled row. */
  function ReadSummary(summary: seq<seq<Value>>): Option<ComparisonStats> {
    var total := CountAt(summary, 4, "Total Unique AWBs");
    var perfect := CountAt(summary, 5, "Perfect Matches");
    var mismatches := CountAt(summary, 6, "Weight Mismatches");
    var allThree := CountAt(summary, 7, "In All Three Sheets");
    var jasterOnly := CountAt(summary, 10, "JASTER Only");
    var cisOnly := CountAt(summary, 11, "CIS Only");
    var unifikasiOnly := CountAt(summary, 12, "UNIFIKASI Only");
    var jasterCis := CountAt(summary, 13, "JASTER & CIS");
    var jasterUnifikasi := CountAt(summary, 14, "JASTER & UNIFIKASI");
    var cisUnifikasi := CountAt(summary, 15, "CIS & UNIFIKASI");
    if |summary| == 16 && total.Some? && perfect.Some? && mismatches.Some? && allThree.Some? && jasterOnly.Some?
       && cisOnly.Some? && unifikasiOnly.Some? && jasterCis.Some? && jasterUnifikasi.Some? && cisUnifikasi.Some? then
      Some(ComparisonStats(total.value, allThree.value, jasterOnly.value, cisOnly.value, unifikasiOnly.value,
                           jasterCis.value, jasterUnifikasi.value, cisUnifikasi.value, mismatches.value, perfect.value))
    else None
  }

  /** A weight cell read back: the em dash is the absent weight. */
  function ReadWeight(v: Value): Option<Option<real>> {
    match v
    case Number(w) => Some(Some(w))
    case Text(s) => if s == NoWeight then Some(None) else None
    case Boolean(_) => None
  }

  function ReadYesNo(v: Value): Option<bool> {
    if v == Text("Yes") then Some(true) else if v == Text("No") then Some(false) else None
  }

  /** What a detailed record shows of a row. */
  datatype DetailedView = DetailedView(awb: string, jasterWeight: Option<real>, cisWeight: Option<real>, unifikasiWeight: Option<real>,
                                       status: Status, weightMatch: bool, issues: string)

  const DetailedHeaders: seq<string> := ["AWB Number", "JASTER Weight", "CIS Weight", "UNIFIKASI Weight",
                                         "In JASTER", "In CIS", "In UNIFIKASI", "Weight Match", "Issues"]

  /** Decodes a detailed record whose headers are the detailed sheet's columns. */
  function ReadDetailed(record: seq<Field>): Option<DetailedView> {
    if |record| != 9 || (exists i :: 0 <= i < 9 && record[i].header != DetailedHeaders[i]) then None
    else
      var awb, j, c, u := record[0].value, ReadWeight(record[1].value), ReadWeight(record[2].value), ReadWeight(record[3].value);
      var inJ, inC, inU, wm := ReadYesNo(record[4].value), ReadYesNo(record[5].value), ReadYesNo(record[6].value), ReadYesNo(record[7].value);
      if awb.Text? && j.Some? && c.Some? && u.Some? && inJ.Some? && inC.Some? && inU.Some? && wm.Some? && record[8].value.Text? then
        Some(DetailedView(awb.text, j.value, c.value, u.value, Status(inJ.value, inC.value, inU.value), wm.value, record[8].value.text))
      else None
  }

  // ---------------------------------------------------------------------------
  // Properties

  /** Null weights render as the em dash and present ones, 0 included, as the number; both read back. */
  lemma WeightCellRoundTrip(w: Option<real>)
    ensures ReadWeight(WeightCell(w)) == Some(w)
    ensures w.Some? ==> WeightCell(w) == Number(w.value)
  {
  }

  lemma YesNoRoundTrip(b: bool)
    ensures ReadYesNo(YesNo(b)) == Some(b)
  {
  }

  /** A detailed record shows the row's AWB, weights, flags and issues, and nothing is lost in rendering them. */
  lemma DetailedRecordRoundTrip(row: ComparisonRow)
    ensures ReadDetailed(DetailedRecord(row))
         == Some(DetailedView(row.awb, row.jasterWeight, row.cisWeight, row.unifikasiWeight, row.status, row.weightMatch,
                              IssuesText(row.discrepancies)))
  {
    var record := DetailedRecord(row);
    assert forall i :: 0 <= i < 9 ==> record[i].header == DetailedHeaders[i];
    WeightCellRoundTrip(row.jasterWeight);
    WeightCellRoundTrip(row.cisWeight);
    WeightCellRoundTrip(row.unifikasiWeight);
  }

  /** The detailed sheet has one record per row, in row order, and each decodes to its row. */
  lemma DetailedSheetOnePerRow(rows: seq<ComparisonRow>)
    ensures |DetailedData(rows)| == |rows|
    ensures forall i :: 0 <= i < |rows| ==>
      ReadDetailed(DetailedData(rows)[i]).Some? && ReadDetailed(DetailedData(rows)[i]).value.awb == rows[i].awb
  {
    forall i | 0 <= i < |rows|
      ensures ReadDetailed(DetailedData(rows)[i]).Some? && ReadDetailed(DetailedData(rows)[i]).value.awb == rows[i].awb
    {
      DetailedRecordRoundTrip(rows[i]);
    }
  }

  /** With non-empty tags, "Issues" is "None" exactly for a row without tags, and otherwise starts with the first tag. */
  lemma IssuesTextMeaning(discrepancies: seq<string>)
    requires forall i :: 0 <= i < |discrepancies| ==> discrepancies[i] != ""
    ensures IssuesText(discrepancies) == "None" <==> discrepancies == [] || Join(discrepancies, ", ") == "None"
    ensures discrepancies != [] ==> IssuesText(discrepancies) == Join(discrepancies, ", ") && discrepancies[0] <= IssuesText(discrepancies)
  {
    JoinEmptyIff(discrepancies, ", ");
    if discrepancies != [] {
      JoinStartsWithFirst(discrepancies, ", ");
    }
  }

  /** The issues-only sheet keeps exactly the rows with tags, in order, and leaves the other rows to the count of clean rows. */
  lemma IssueRowsSplit(rows: seq<ComparisonRow>)
    ensures forall r :: r in IssueRows(rows) <==> r in rows && r.discrepancies != []
    ensures |MismatchData(rows)| + |Filter(rows, NoIssuesFilter())| == |rows|
  {
    FilterComplement(rows, HasIssuesFilter(), NoIssuesFilter());
  }

  function NoIssuesFilter(): ComparisonRow -> bool {
    (row: ComparisonRow) => row.discrepancies == []
  }

  /** The summary is sixteen rows with every counter in its labelled row, so reading it back gives the statistics. */
  lemma SummaryRoundTrip(stats: ComparisonStats, generated: string)
    ensures |SummaryData(stats, generated)| == 16
    ensures ReadSummary(SummaryData(stats, generated)) == Some(stats)
  {
    var s := SummaryData(stats, generated);
    assert (stats.totalUniqueAwbs as real).Floor == stats.totalUniqueAwbs;
  }
}
