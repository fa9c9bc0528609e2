/**
 * What the parser's column resolution, required-sheet check and per-sheet
 * extraction guarantee.
 */
module ParserProperties {
  import opened Wrappers
  import opened Seqs
  import opened Types
  import opened ExcelParser

  // ---------------------------------------------------------------------------
  // Column resolution

  /** On a well-formed row, a resolved column is one of the row's keys. */
  lemma {:induction false} ResolvedColumnIsRowKey(row: JsonRow, names: seq<string>)
    requires WellFormed(row)
    ensures var col := ResolvedColumn(row, names);
      col.Some? ==> col.value in row.keys && col.value in row.cells
  {
    var col := ResolvedColumn(row, names);
    if col.Some? {
      var i :| 0 <= i < |names| && ResolveName(row, names[i]) == col;
      var name := names[i];
      if name !in row.cells {
        var found := FindKey(row.keys, name);
        assert col == found;
      }
      assert col.value in (set k | k in row.keys) <==> col.value in row.keys;
    }
  }

  /** Candidates are tried in order: the first one that resolves decides, whatever later ones would give. */
  lemma {:induction false} FirstResolvingCandidateWins(row: JsonRow, names: seq<string>, i: nat)
    requires i < |names| && ResolveName(row, names[i]).Some?
    requires forall j :: 0 <= j < i ==> ResolveName(row, names[j]).None?
    ensures ResolvedColumn(row, names) == ResolveName(row, names[i])
  {
    if i > 0 {
      FirstResolvingCandidateWins(row, names[1..], i - 1);
    }
  }

  /** For one candidate, an exact key beats a case-insensitive one, even one listed earlier in the row. */
  lemma ExactMatchBeatsFolded(row: JsonRow, name: string)
    requires name in row.cells
    ensures ResolvedColumn(row, [name]) == Some(name)
  {
  }

  /** Without an exact key, a candidate resolves to the first row key that equals it up to case and surrounding blanks. */
  lemma FoldedMatchIsFirstMatchingKey(row: JsonRow, name: string)
    requires name !in row.cells && ResolveName(row, name).Some?
    ensures var k := ResolveName(row, name).value;
      exists i :: 0 <= i < |row.keys| && row.keys[i] == k && SameHeader(k, name)
                  && forall j :: 0 <= j < i ==> !SameHeader(row.keys[j], name)
  {
  }

  /** A name whose lower-cased, trimmed form is not empty. */
  predicate NotBlank(name: string) {
    Trim(Lower(name)) != ""
  }

  lemma TrimEmpty()
    ensures Trim("") == "" && Lower("") == ""
  {
  }

  /**
   * For candidates that are not blank, `findColumn` gives null iff no
   * candidate is a key and no key equals a candidate up to case and
   * surrounding blanks.
   */
  lemma {:induction false} UnresolvedIffNoMatch(row: JsonRow, names: seq<string>)
    requires forall i :: 0 <= i < |names| ==> NotBlank(names[i])
    ensures ResolvedColumn(row, names).None?
      <==> forall i :: 0 <= i < |names| ==>
             names[i] !in row.cells && forall k :: 0 <= k < |row.keys| ==> !SameHeader(row.keys[k], names[i])
  {
    TrimEmpty();
    forall i | 0 <= i < |names|
      ensures ResolveName(row, names[i]).None?
        <==> names[i] !in row.cells && forall k :: 0 <= k < |row.keys| ==> !SameHeader(row.keys[k], names[i])
    {
      var found := FindKey(row.keys, names[i]);
      if found.Some? {
        assert SameHeader(found.value, names[i]);
        assert found.value != "";
      }
    }
  }

  /** A string that starts with a non-blank character stays non-empty when lower-cased and trimmed. */
  lemma StartsNonBlank(s: string)
    requires |s| > 0 && !IsSpace(s[0])
    ensures NotBlank(s)
  {
    var t := Lower(s);
    assert !IsSpace(t[0]);
    assert LeadingSpaces(t) == 0;
    assert t[LeadingSpaces(t)..] == t;
    assert TrailingStart(t) > 0;
  }

  lemma {:induction false} AliasListNotBlank(names: seq<string>)
    requires forall i :: 0 <= i < |names| ==> |names[i]| > 0 && !IsSpace(names[i][0])
    ensures forall i :: 0 <= i < |names| ==> NotBlank(names[i])
  {
    forall i | 0 <= i < |names|
      ensures NotBlank(names[i])
    {
      StartsNonBlank(names[i]);
    }
  }

  /** Every alias the parser uses is non-blank, so `UnresolvedIffNoMatch` applies to all six lists. */
  lemma AliasesNotBlank()
    ensures forall i :: 0 <= i < |JasterAwbColumns| ==> NotBlank(JasterAwbColumns[i])
    ensures forall i :: 0 <= i < |JasterWeightColumns| ==> NotBlank(JasterWeightColumns[i])
    ensures forall i :: 0 <= i < |CisAwbColumns| ==> NotBlank(CisAwbColumns[i])
    ensures forall i :: 0 <= i < |CisWeightColumns| ==> NotBlank(CisWeightColumns[i])
    ensures forall i :: 0 <= i < |UnifikasiAwbColumns| ==> NotBlank(UnifikasiAwbColumns[i])
    ensures forall i :: 0 <= i < |UnifikasiWeightColumns| ==> NotBlank(UnifikasiWeightColumns[i])
  {
    AliasListNotBlank(JasterAwbColumns);
    AliasListNotBlank(JasterWeightColumns);
    AliasListNotBlank(CisAwbColumns);
    AliasListNotBlank(CisWeightColumns);
    AliasListNotBlank(UnifikasiAwbColumns);
    AliasListNotBlank(UnifikasiWeightColumns);
  }

  // ---------------------------------------------------------------------------
  // Per-sheet extraction

  /** Extraction works row by row: a split sheet extracts to the concatenation of its parts. */
  lemma ExtractSheetConcat(a: seq<JsonRow>, b: seq<JsonRow>, awbNames: seq<string>, weightNames: seq<string>, conv: JsConversions)
    ensures ExtractSheet(a + b, awbNames, weightNames, conv)
         == ExtractSheet(a, awbNames, weightNames, conv) + ExtractSheet(b, awbNames, weightNames, conv)
  {
    var p, f := HasAwbFilter(awbNames), RecordOf(awbNames, weightNames, conv);
    FilterConcat(a, b, p);
    MapConcat(Filter(a, p), Filter(b, p), f);
  }

  /** One row extracts to its record when its AWB cell is truthy, and to nothing otherwise. */
  lemma ExtractSheetSingle(row: JsonRow, awbNames: seq<string>, weightNames: seq<string>, conv: JsConversions)
    ensures ExtractSheet([row], awbNames, weightNames, conv)
         == if HasAwb(row, awbNames) then [ToRecord(row, awbNames, weightNames, conv)] else []
  {
    assert [row][1..] == [];
    var kept := Filter([row], HasAwbFilter(awbNames));
    assert kept == if HasAwb(row, awbNames) then [row] else [];
  }

  /** An extracted AWB carries no surrounding blanks. */
  lemma ExtractedAwbsAreTrimmed(rows: seq<JsonRow>, awbNames: seq<string>, weightNames: seq<string>, conv: JsConversions)
    ensures var records := ExtractSheet(rows, awbNames, weightNames, conv);
      forall i :: 0 <= i < |records| ==> Trim(records[i].awb) == records[i].awb
  {
    var kept := Filter(rows, HasAwbFilter(awbNames));
    var records := ExtractSheet(rows, awbNames, weightNames, conv);
    forall i | 0 <= i < |records|
      ensures Trim(records[i].awb) == records[i].awb
    {
      var row := kept[i];
      assert records[i] == ToRecord(row, awbNames, weightNames, conv);
      var awbCol := ResolvedColumn(row, awbNames);
      var awbCell := if awbCol.Some? then CellAt(row, awbCol.value) else None;
      TrimIdempotent(if awbCell.Some? then Stringify(awbCell.value, conv) else "");
    }
  }

  /** A row whose weight column does not resolve gets weight 0. */
  lemma UnresolvedWeightIsZero(row: JsonRow, awbNames: seq<string>, weightNames: seq<string>, conv: JsConversions)
    requires ResolvedColumn(row, weightNames).None?
    ensures ToRecord(row, awbNames, weightNames, conv).weight == 0.0
  {
  }

  /** A weight cell that does not parse (`NaN`) also gives weight 0. */
  lemma UnparsableWeightIsZero(row: JsonRow, awbNames: seq<string>, weightNames: seq<string>, conv: JsConversions)
    requires var col := ResolvedColumn(row, weightNames);
      Usable(col) && col.value in row.cells && conv.parseFloat(Stringify(row.cells[col.value], conv)).None?
    ensures ToRecord(row, awbNames, weightNames, conv).weight == 0.0
  {
  }

  /** A cell holding blanks only passes the filter and yields an empty AWB. */
  lemma BlankAwbCellIsKept(conv: JsConversions)
    ensures var row := JsonRow(["AWB"], map["AWB" := Text("  ")]);
      HasAwb(row, JasterAwbColumns) && ToRecord(row, JasterAwbColumns, JasterWeightColumns, conv).awb == ""
  {
    var row := JsonRow(["AWB"], map["AWB" := Text("  ")]);
    assert ResolvedColumn(row, JasterAwbColumns) == Some("AWB");
    assert LeadingSpaces("  ") == 2;
  }

  // ---------------------------------------------------------------------------
  // The required-sheet check

  /** The missing sheets are listed in JASTER, CIS, UNIFIKASI order. */
  lemma MissingSheetsInOrder(sheetNames: seq<string>)
    ensures MissingSheets(sheetNames)
         == (if Jaster !in sheetNames then [Jaster] else [])
          + (if Cis !in sheetNames then [Cis] else [])
          + (if Unifikasi !in sheetNames then [Unifikasi] else [])
  {
    var p := AbsentFrom(sheetNames);
    var empty: seq<string> := [];
    var t1 := empty + [Jaster];
    FilterSnoc(empty, Jaster, p);
    assert Filter(t1, p) == if Jaster !in sheetNames then [Jaster] else [];
    var t2 := t1 + [Cis];
    FilterSnoc(t1, Cis, p);
    assert Filter(t2, p) == Filter(t1, p) + (if Cis !in sheetNames then [Cis] else []);
    var t3 := t2 + [Unifikasi];
    FilterSnoc(t2, Unifikasi, p);
    assert t3 == RequiredSheets;
  }

  /** Parsing fails iff a required sheet is absent, and then with the message listing the absent ones. */
  lemma ParseFailsIffSheetMissing(wb: Workbook, conv: JsConversions)
    requires ValidWorkbook(wb)
    ensures ParseWorkbook(wb, conv).Failure? <==> (Jaster !in wb.sheetNames || Cis !in wb.sheetNames || Unifikasi !in wb.sheetNames)
    ensures ParseWorkbook(wb, conv).Failure? ==>
      ParseWorkbook(wb, conv).error == "Missing required sheets: " + Join(MissingSheets(wb.sheetNames), ", ")
  {
    MissingSheetsInOrder(wb.sheetNames);
  }

  /** A workbook with only JASTER misses CIS and UNIFIKASI, in that order. */
  lemma OnlyJasterMissesTwo()
    ensures MissingSheets([Jaster]) == [Cis, Unifikasi]
  {
    MissingSheetsInOrder([Jaster]);
    assert |Cis| != |Jaster| && |Unifikasi| != |Jaster|;
  }

  /** A workbook with only JASTER is rejected naming CIS and UNIFIKASI. */
  lemma MissingTwoSheetsMessage(conv: JsConversions)
    ensures ParseWorkbook(Workbook(["JASTER"], map["JASTER" := []]), conv)
         == Failure("Missing required sheets: CIS, UNIFIKASI")
  {
    var wb := Workbook([Jaster], map[Jaster := []]);
    assert ValidWorkbook(wb);
    OnlyJasterMissesTwo();
    JoinPair(Cis, Unifikasi, ", ");
    var message := "Missing required sheets: " + (Cis + ", " + Unifikasi);
    assert ParseWorkbook(wb, conv) == Failure(message);
    assert message == "Missing required sheets: CIS, UNIFIKASI";
  }
}
