/**
 * The records exchanged between the workbook parser, the reconciliation
 * engine, the tables and the report export, and the application constants.
 */
module Types {
  import opened Wrappers

  /** One extracted spreadsheet row: an air-waybill number and its chargeable weight. */
  datatype SheetData = SheetData(awb: string, weight: real)

  /** The three extracted sources. */
  datatype ParsedExcelData = ParsedExcelData(jaster: seq<SheetData>, cis: seq<SheetData>, unifikasi: seq<SheetData>)

  /** Which sources hold the row's AWB. */
  datatype Status = Status(inJaster: bool, inCis: bool, inUnifikasi: bool)

  /**
   * One row of the comparison: the weight each source holds for the AWB
   * (`None` where the source lacks it), the presence flags, the tolerance
   * test, the discrepancy tags and the duplicate flag.
   */
  datatype ComparisonRow = ComparisonRow(
    awb: string,
    jasterWeight: Option<real>,
    cisWeight: Option<real>,
    unifikasiWeight: Option<real>,
    status: Status,
    weightMatch: bool,
    discrepancies: seq<string>,
    hasDuplicates: bool)

  datatype ComparisonStats = ComparisonStats(
    totalUniqueAwbs: nat,
    inAllThree: nat,
    inJasterOnly: nat,
    inCisOnly: nat,
    inUnifikasiOnly: nat,
    inJasterAndCis: nat,
    inJasterAndUnifikasi: nat,
    inCisAndUnifikasi: nat,
    weightMismatches: nat,
    perfectMatches: nat)

  /** The engine's output; `timestamp` is the creation time as the caller renders it. */
  datatype ComparisonResult = ComparisonResult(rows: seq<ComparisonRow>, stats: ComparisonStats, timestamp: string)

  /** A JavaScript value held by a spreadsheet cell or written to a report cell. */
  datatype Value = Text(text: string) | Number(number: real) | Boolean(flag: bool)

  // Application constants

  const DefaultPageSize: int := 50
  const PageSizeOptions: seq<int> := [25, 50, 100, 200]

  /** Two weights match when they differ by strictly less than this. */
  const WeightMatchThreshold: real := 0.01

  const Jaster: string := "JASTER"
  const Cis: string := "CIS"
  const Unifikasi: string := "UNIFIKASI"

  /** Accepted header names per source, tried in this order. */
  const JasterAwbColumns: seq<string> := ["AWB", "awb"]
  const JasterWeightColumns: seq<string> := ["CHW", "Chw", "chw", "CHW ", "Chw ", "chw "]
  const CisAwbColumns: seq<string> := ["No AWB", "No. AWB", "AWB", "no awb"]
  const CisWeightColumns: seq<string> := ["Chw. Weight", "Chw Weight", "CHW Weight", "Weight", "chw. weight"]
  const UnifikasiAwbColumns: seq<string> := ["SMU", "smu"]
  const UnifikasiWeightColumns: seq<string> := ["Kg", "kg", "KG", "Weight", "weight"]
}
