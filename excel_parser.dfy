/**
 * The workbook parser: checks that the JASTER, CIS and UNIFIKASI sheets
 * exist, resolves each sheet's AWB and weight columns by alias, and turns the
 * rows of each sheet into `(awb, weight)` records.
 *
 * A sheet arrives already converted to JSON rows (`sheet_to_json`): each row
 * lists its header keys in `Object.keys` order and maps them to cell values.
 * Number-to-string conversion and `Number.parseFloat` are JavaScript
 * primitives and enter as the two functions of `JsConversions`.
 */
module ExcelParser {
  import opened Wrappers
  import opened Seqs
  import opened Types

  /** One JSON row of a sheet: `Object.keys(row)` and the key-to-value mapping. */
  datatype JsonRow = JsonRow(keys: seq<string>, cells: map<string, Value>)

  /** The keys are distinct and are exactly the keys that hold a value, as in a JavaScript object. */
  predicate WellFormed(row: JsonRow) {
    Distinct(row.keys) && row.cells.Keys == set k | k in row.keys
  }

  /** `row[key]`, `None` standing for `undefined`. */
  function CellAt(row: JsonRow, key: string): Option<Value> {
    if key in row.cells then Some(row.cells[key]) else None
  }

  /** JavaScript truthiness of a cell value. */
  predicate Truthy(v: Value) {
    match v
    case Text(s) => s != ""
    case Number(n) => n != 0.0
    case Boolean(b) => b
  }

  /**
   * `String(value)` and `Number.parseFloat(text)`; `parseFloat` returns
   * `None` for `NaN`.
   */
  datatype JsConversions = JsConversions(formatNumber: real -> string, parseFloat: string -> Option<real>)

  /** `String(v)` for a cell value. */
  function Stringify(v: Value, conv: JsConversions): string {
    match v
    case Text(s) => s
    case Number(n) => conv.formatNumber(n)
    case Boolean(b) => if b then "true" else "false"
  }

  // ---------------------------------------------------------------------------
  // findColumn

  /** The header comparison: both sides lower-cased and trimmed. */
  predicate SameHeader(key: string, name: string) {
    Trim(Lower(key)) == Trim(Lower(name))
  }

  /** The `find` callback: the key matches `name` once both are lower-cased and trimmed. */
  function HeaderOf(name: string): string -> bool {
    key => SameHeader(key, name)
  }

  /** `rowKeys.find((key) => key.toLowerCase().trim() === name.toLowerCase().trim())`. */
  function FindKey(keys: seq<string>, name: string): (found: Option<string>)
    ensures found.Some? ==> found.value in keys && SameHeader(found.value, name)
    ensures found.Some? ==> exists i :: 0 <= i < |keys| && keys[i] == found.value && forall j :: 0 <= j < i ==> !SameHeader(keys[j], name)
    ensures found.None? <==> forall i :: 0 <= i < |keys| ==> !SameHeader(keys[i], name)
  {
    var i := FirstWhere(keys, HeaderOf(name));
    if i < |keys| then Some(keys[i]) else None
  }

  /** What one candidate name resolves to: itself on an exact hit, else the first truthy folded hit. */
  function ResolveName(row: JsonRow, name: string): Option<string> {
    if name in row.cells then Some(name)
    else
      var found := FindKey(row.keys, name);
      if found.Some? && found.value != "" then found else None
  }

  /** The column `findColumn(row, names)` returns: the resolution of the first candidate that resolves. */
  function ResolvedColumn(row: JsonRow, names: seq<string>): (col: Option<string>)
    ensures col.None? <==> forall i :: 0 <= i < |names| ==> ResolveName(row, names[i]).None?
    ensures col.Some? ==> exists i :: 0 <= i < |names| && ResolveName(row, names[i]) == col
                                 && forall j :: 0 <= j < i ==> ResolveName(row, names[j]).None?
  {
    if names == [] then None
    else if ResolveName(row, names[0]).Some? then ResolveName(row, names[0])
    else
      var rest := ResolvedColumn(row, names[1..]);
      if rest.Some? then
        var i :| 0 <= i < |names[1..]| && ResolveName(row, names[1..][i]) == rest
                 && forall j :: 0 <= j < i ==> ResolveName(row, names[1..][j]).None?;
        assert ResolveName(row, names[i + 1]) == rest;
        rest
      else rest
  }

  /** `findColumn`: tries the candidates in order, returning on the first exact or case-insensitive hit. */
  method FindColumn(row: JsonRow, names: seq<string>) returns (col: Option<string>)
    ensures col == ResolvedColumn(row, names)
  {
    for i := 0 to |names|
      invariant ResolvedColumn(row, names) == ResolvedColumn(row, names[i..])
    {
      assert names[i..][1..] == names[i + 1..];
      var name := names[i];
      if name in row.cells {
        return Some(name);
      }
      var found := FindKey(row.keys, name);
      if found.Some? && found.value != "" {
        return found;
      }
    }
    return None;
  }

  // ---------------------------------------------------------------------------
  // Per-sheet extraction

  /** A resolved column that is truthy (`awbCol && ...`). */
  predicate Usable(col: Option<string>) {
    col.Some? && col.value != ""
  }

  /** The filter of a sheet: the AWB column resolves and its cell is truthy. */
  predicate HasAwb(row: JsonRow, awbNames: seq<string>) {
    var col := ResolvedColumn(row, awbNames);
    Usable(col) && CellAt(row, col.value).Some? && Truthy(CellAt(row, col.value).value)
  }

  function HasAwbFilter(awbNames: seq<string>): JsonRow -> bool {
    row => HasAwb(row, awbNames)
  }

  /** `Number.parseFloat(x) || 0`: `NaN` and zero both become 0. */
  function OrZero(parsed: Option<real>): real {
    if parsed.Some? then parsed.value else 0.0
  }

  /** `weightCol ? Number.parseFloat(row[weightCol]) || 0 : 0`. */
  function WeightOf(row: JsonRow, weightCol: Option<string>, conv: JsConversions): real {
    if Usable(weightCol) then
      match CellAt(row, weightCol.value)
      case Some(v) => OrZero(conv.parseFloat(Stringify(v, conv)))
      case None => 0.0
    else 0.0
  }

  /**
   * The mapping of a kept row: the stringified, trimmed AWB and the parsed
   * weight. Only rows the filter keeps reach it, so the AWB cell then exists;
   * for any other row the AWB is left empty.
   */
  function ToRecord(row: JsonRow, awbNames: seq<string>, weightNames: seq<string>, conv: JsConversions): SheetData {
    var awbCol := ResolvedColumn(row, awbNames);
    var awbCell := if awbCol.Some? then CellAt(row, awbCol.value) else None;
    SheetData(Trim(if awbCell.Some? then Stringify(awbCell.value, conv) else ""), WeightOf(row, ResolvedColumn(row, weightNames), conv))
  }

  function RecordOf(awbNames: seq<string>, weightNames: seq<string>, conv: JsConversions): JsonRow -> SheetData {
    row => ToRecord(row, awbNames, weightNames, conv)
  }

  /** `data.filter(row has a truthy AWB).map(row to record)`. */
  function ExtractSheet(rows: seq<JsonRow>, awbNames: seq<string>, weightNames: seq<string>, conv: JsConversions): seq<SheetData> {
    Map(Filter(rows, HasAwbFilter(awbNames)), RecordOf(awbNames, weightNames, conv))
  }

  // ---------------------------------------------------------------------------
  // The workbook

  /** A workbook after `XLSX.read`: its sheet names and each sheet's JSON rows. */
  datatype Workbook = Workbook(sheetNames: seq<string>, sheets: map<string, seq<JsonRow>>)

  /** Every listed sheet has rows, as `XLSX.read` guarantees. */
  predicate ValidWorkbook(wb: Workbook) {
    forall n :: n in wb.sheetNames ==> n in wb.sheets
  }

  const RequiredSheets: seq<string> := [Jaster, Cis, Unifikasi]

  function AbsentFrom(sheetNames: seq<string>): string -> bool {
    sheet => sheet !in sheetNames
  }

  /** `requiredSheets.filter((sheet) => !workbook.SheetNames.includes(sheet))`. */
  function MissingSheets(sheetNames: seq<string>): (missing: seq<string>)
    ensures forall s :: s in missing <==> s in RequiredSheets && s !in sheetNames
  {
    Filter(RequiredSheets, AbsentFrom(sheetNames))
  }

  /** The body of `reader.onload`: the sheet check, then the three extractions. */
  function ParseWorkbook(wb: Workbook, conv: JsConversions): Result<ParsedExcelData, string>
    requires ValidWorkbook(wb)
  {
    var missing := MissingSheets(wb.sheetNames);
    if |missing| > 0 then Failure("Missing required sheets: " + Join(missing, ", "))
    else
      assert Jaster in wb.sheetNames && Cis in wb.sheetNames && Unifikasi in wb.sheetNames;
      Success(ParsedExcelData(
        ExtractSheet(wb.sheets[Jaster], JasterAwbColumns, JasterWeightColumns, conv),
        ExtractSheet(wb.sheets[Cis], CisAwbColumns, CisWeightColumns, conv),
        ExtractSheet(wb.sheets[Unifikasi], UnifikasiAwbColumns, UnifikasiWeightColumns, conv)))
  }
}
