/**
 * The three-source reconciliation engine: joins the JASTER, CIS and UNIFIKASI
 * records on their AWB, emits one comparison row per distinct AWB and counts
 * presence patterns and weight agreement.
 *
 * Each source is first collapsed into a JavaScript `Map` built from its
 * `(awb, weight)` pairs: a repeated AWB keeps the position of its first record
 * and the weight of its last one. No duplicate detection happens.
 */
module ComparisonEngine {
  import opened Wrappers
  import opened Seqs
  import opened Types

  const MissingInJaster: string := "Missing in JASTER"
  const MissingInCis: string := "Missing in CIS"
  const MissingInUnifikasi: string := "Missing in UNIFIKASI"
  const WeightMismatch: string := "Weight mismatch"

  /** Every discrepancy tag, in the order in which a row lists them. */
  const AllTags: seq<string> := [MissingInJaster, MissingInCis, MissingInUnifikasi, WeightMismatch]

  // ---------------------------------------------------------------------------
  // Per-source lookups

  /** The AWB column of a source, in record order. */
  function Awbs(records: seq<SheetData>): seq<string> {
    seq(|records|, i requires 0 <= i < |records| => records[i].awb)
  }

  lemma AwbsSnoc(records: seq<SheetData>, r: SheetData)
    ensures Awbs(records + [r]) == Awbs(records) + [r.awb]
  {
  }

  /**
   * The weight the source's map holds for `awb`: that of the LAST record with
   * this AWB, `None` when there is no such record.
   */
  function LastWeight(records: seq<SheetData>, awb: string): (w: Option<real>)
    ensures w.Some? <==> awb in Awbs(records)
  {
    if records == [] then None
    else
      var prefix := records[..|records| - 1];
      assert records == prefix + [records[|records| - 1]];
      AwbsSnoc(prefix, records[|records| - 1]);
      if records[|records| - 1].awb == awb then Some(records[|records| - 1].weight)
      else LastWeight(prefix, awb)
  }

  /** The map's weight is that of the record with the AWB that no later record repeats. */
  lemma {:induction false} LastWeightIsLastRecord(records: seq<SheetData>, awb: string, i: nat)
    requires i < |records| && records[i].awb == awb
    requires forall j :: i < j < |records| ==> records[j].awb != awb
    ensures LastWeight(records, awb) == Some(records[i].weight)
  {
    if i < |records| - 1 {
      LastWeightIsLastRecord(records[..|records| - 1], awb, i);
    }
  }

  /** Appending a record overrides the weight of its AWB and leaves the others. */
  lemma LastWeightSnoc(records: seq<SheetData>, r: SheetData)
    ensures forall awb :: LastWeight(records + [r], awb) == if r.awb == awb then Some(r.weight) else LastWeight(records, awb)
  {
    assert (records + [r])[..|records|] == records;
  }

  /** A JavaScript `Map` from AWB to weight: its keys in insertion order and its entries. */
  datatype Lookup = Lookup(keys: seq<string>, entries: map<string, real>) {
    /** `map.get(awb) ?? null`. */
    function Get(awb: string): Option<real> {
      if awb in entries then Some(entries[awb]) else None
    }
  }

  /** One `set` of the map's construction: a new key is appended, an existing one keeps its place; the weight is overwritten. */
  lemma LookupStep(prefix: seq<SheetData>, r: SheetData, keys: seq<string>, entries: map<string, real>)
    requires keys == Dedup(Awbs(prefix))
    requires forall awb :: Lookup(keys, entries).Get(awb) == LastWeight(prefix, awb)
    ensures var keys' := if r.awb in entries then keys else keys + [r.awb];
      && keys' == Dedup(Awbs(prefix + [r]))
      && forall awb :: Lookup(keys', entries[r.awb := r.weight]).Get(awb) == LastWeight(prefix + [r], awb)
  {
    assert r.awb in entries <==> r.awb in Awbs(prefix) by {
      assert Lookup(keys, entries).Get(r.awb) == LastWeight(prefix, r.awb);
    }
    AwbsSnoc(prefix, r);
    DedupSnoc(Awbs(prefix), r.awb);
    var entries' := entries[r.awb := r.weight];
    forall awb
      ensures Lookup(keys, entries').Get(awb) == LastWeight(prefix + [r], awb)
    {
      LastWeightSnoc(prefix, r);
      if awb != r.awb {
        assert Lookup(keys, entries).Get(awb) == LastWeight(prefix, awb);
      }
    }
  }

  /** `new Map(records.map((item) => [item.awb, item.weight]))`. */
  method BuildLookup(records: seq<SheetData>) returns (lookup: Lookup)
    ensures lookup.keys == Dedup(Awbs(records))
    ensures forall awb :: lookup.Get(awb) == LastWeight(records, awb)
  {
    var keys: seq<string> := [];
    var entries: map<string, real> := map[];
    for i := 0 to |records|
      invariant keys == Dedup(Awbs(records[..i]))
      invariant forall awb :: Lookup(keys, entries).Get(awb) == LastWeight(records[..i], awb)
    {
      var r := records[i];
      assert records[..i + 1] == records[..i] + [r];
      LookupStep(records[..i], r, keys, entries);
      if r.awb !in entries {
        keys := keys + [r.awb];
      }
      entries := entries[r.awb := r.weight];
    }
    assert records[..|records|] == records;
    lookup := Lookup(keys, entries);
  }

  /** `new Set(items)`, listed in its iteration order. */
  method NewSet(items: seq<string>) returns (order: seq<string>)
    ensures order == Dedup(items)
  {
    order := [];
    var seen: set<string> := {};
    for i := 0 to |items|
      invariant order == Dedup(items[..i])
      invariant forall x :: x in seen <==> x in order
    {
      assert items[..i + 1] == items[..i] + [items[i]];
      DedupSnoc(items[..i], items[i]);
      if items[i] !in seen {
        order := order + [items[i]];
        seen := seen + {items[i]};
      }
    }
    assert items[..|items|] == items;
  }

  /** The AWBs of the comparison: the key sets of the three maps, joined in JASTER, CIS, UNIFIKASI order. */
  function AllAwbs(data: ParsedExcelData): seq<string> {
    Dedup(Dedup(Awbs(data.jaster)) + Dedup(Awbs(data.cis)) + Dedup(Awbs(data.unifikasi)))
  }

  // ---------------------------------------------------------------------------
  // One row

  /** The non-null weights, in JASTER, CIS, UNIFIKASI order. */
  function PresentWeights(jaster: Option<real>, cis: Option<real>, unifikasi: Option<real>): seq<real> {
    (if jaster.Some? then [jaster.value] else [])
    + (if cis.Some? then [cis.value] else [])
    + (if unifikasi.Some? then [unifikasi.value] else [])
  }

  function Abs(x: real): real {
    if x < 0.0 then -x else x
  }

  /** `weights.length > 1 ? weights.every((w) => Math.abs(w - weights[0]) < 0.01) : true`. */
  predicate WeightsMatch(weights: seq<real>) {
    |weights| > 1 ==> forall w :: w in weights ==> Abs(w - weights[0]) < WeightMatchThreshold
  }

  function StatusOf(jaster: Option<real>, cis: Option<real>, unifikasi: Option<real>): Status {
    Status(jaster.Some?, cis.Some?, unifikasi.Some?)
  }

  /** The discrepancy tags the engine pushes, in push order. */
  function Discrepancies(status: Status, weightMatch: bool, weightCount: nat): seq<string> {
    (if !status.inJaster then [MissingInJaster] else [])
    + (if !status.inCis then [MissingInCis] else [])
    + (if !status.inUnifikasi then [MissingInUnifikasi] else [])
    + (if !weightMatch && weightCount > 1 then [WeightMismatch] else [])
  }

  /** The row the engine builds for `awb` from the three looked-up weights. */
  function ExpectedRow(awb: string, jaster: Option<real>, cis: Option<real>, unifikasi: Option<real>): ComparisonRow {
    var weights := PresentWeights(jaster, cis, unifikasi);
    var status := StatusOf(jaster, cis, unifikasi);
    var weightMatch := WeightsMatch(weights);
    ComparisonRow(awb, jaster, cis, unifikasi, status, weightMatch, Discrepancies(status, weightMatch, |weights|), false)
  }

  /** The row of `awb` in the comparison of `data`: built from the three sources' last weights for it. */
  function RowFor(data: ParsedExcelData, awb: string): ComparisonRow {
    ExpectedRow(awb, LastWeight(data.jaster, awb), LastWeight(data.cis, awb), LastWeight(data.unifikasi, awb))
  }

  /** The rows of the comparison of `data`, one per AWB of `AllAwbs(data)`. */
  function EngineRows(data: ParsedExcelData): seq<ComparisonRow> {
    var awbs := AllAwbs(data);
    seq(|awbs|, i requires 0 <= i < |awbs| => RowFor(data, awbs[i]))
  }

  /** A row whose fields are derived from its weights the way the engine derives them. */
  predicate IsEngineRow(row: ComparisonRow) {
    row == ExpectedRow(row.awb, row.jasterWeight, row.cisWeight, row.unifikasiWeight)
  }

  // ---------------------------------------------------------------------------
  // Statistics

  /** The eight presence patterns of a row. */
  datatype Presence = AllThree | JasterAndCis | JasterAndUnifikasi | CisAndUnifikasi | JasterOnly | CisOnly | UnifikasiOnly | NoSource

  /** `[inJaster, inCis, inUnifikasi].filter(Boolean).length`. */
  function PresenceCount(status: Status): nat {
    (if status.inJaster then 1 else 0) + (if status.inCis then 1 else 0) + (if status.inUnifikasi then 1 else 0)
  }

  function PresenceOf(status: Status): Presence {
    match status
    case Status(true, true, true) => AllThree
    case Status(true, true, false) => JasterAndCis
    case Status(true, false, true) => JasterAndUnifikasi
    case Status(false, true, true) => CisAndUnifikasi
    case Status(true, false, false) => JasterOnly
    case Status(false, true, false) => CisOnly
    case Status(false, false, true) => UnifikasiOnly
    case Status(false, false, false) => NoSource
  }

  /** The number of rows with presence pattern `p`. */
  function CountPresence(rows: seq<ComparisonRow>, p: Presence): nat {
    if rows == [] then 0
    else CountPresence(rows[..|rows| - 1], p) + (if PresenceOf(rows[|rows| - 1].status) == p then 1 else 0)
  }

  /** The number of rows present in all three sources whose weights match. */
  function CountPerfect(rows: seq<ComparisonRow>): nat {
    if rows == [] then 0
    else
      var r := rows[|rows| - 1];
      CountPerfect(rows[..|rows| - 1]) + (if PresenceCount(r.status) == 3 && r.weightMatch then 1 else 0)
  }

  /** The number of rows present in two or three sources whose weights do not match. */
  function CountMismatch(rows: seq<ComparisonRow>): nat {
    if rows == [] then 0
    else
      var r := rows[|rows| - 1];
      CountMismatch(rows[..|rows| - 1]) + (if PresenceCount(r.status) >= 2 && !r.weightMatch then 1 else 0)
  }

  /** The statistics of `rows`, each counter stated as a count over the rows. */
  function StatsOf(rows: seq<ComparisonRow>): ComparisonStats {
    ComparisonStats(
      totalUniqueAwbs := |rows|,
      inAllThree := CountPresence(rows, AllThree),
      inJasterOnly := CountPresence(rows, JasterOnly),
      inCisOnly := CountPresence(rows, CisOnly),
      inUnifikasiOnly := CountPresence(rows, UnifikasiOnly),
      inJasterAndCis := CountPresence(rows, JasterAndCis),
      inJasterAndUnifikasi := CountPresence(rows, JasterAndUnifikasi),
      inCisAndUnifikasi := CountPresence(rows, CisAndUnifikasi),
      weightMismatches := CountMismatch(rows),
      perfectMatches := CountPerfect(rows))
  }

  // ---------------------------------------------------------------------------
  // compareSheets

  /** The body of the row loop: looks `awb` up in the three maps and assembles its row. */
  method BuildRow(awb: string, jasterMap: Lookup, cisMap: Lookup, unifikasiMap: Lookup) returns (row: ComparisonRow)
    ensures row == ExpectedRow(awb, jasterMap.Get(awb), cisMap.Get(awb), unifikasiMap.Get(awb))
  {
    var jasterWeight := jasterMap.Get(awb);
    var cisWeight := cisMap.Get(awb);
    var unifikasiWeight := unifikasiMap.Get(awb);
    var status := Status(jasterWeight.Some?, cisWeight.Some?, unifikasiWeight.Some?);
    var weights := PresentWeights(jasterWeight, cisWeight, unifikasiWeight);
    var weightMatch := WeightsMatch(weights);

    var discrepancies: seq<string> := [];
    if !status.inJaster { discrepancies := discrepancies + [MissingInJaster]; }
    if !status.inCis { discrepancies := discrepancies + [MissingInCis]; }
    if !status.inUnifikasi { discrepancies := discrepancies + [MissingInUnifikasi]; }
    if !weightMatch && |weights| > 1 { discrepancies := discrepancies + [WeightMismatch]; }

    row := ComparisonRow(awb, jasterWeight, cisWeight, unifikasiWeight, status, weightMatch, discrepancies, false);
  }

  /** How the statistics of `rows` change when one more row is counted. */
  lemma StatsSnoc(rows: seq<ComparisonRow>, row: ComparisonRow)
    ensures var before, after := StatsOf(rows), StatsOf(rows + [row]);
      after.totalUniqueAwbs == before.totalUniqueAwbs + 1
      && (forall p :: CountPresence(rows + [row], p) == CountPresence(rows, p) + (if PresenceOf(row.status) == p then 1 else 0))
      && after.weightMismatches == before.weightMismatches + (if PresenceCount(row.status) >= 2 && !row.weightMatch then 1 else 0)
      && after.perfectMatches == before.perfectMatches + (if PresenceCount(row.status) == 3 && row.weightMatch then 1 else 0)
  {
    assert (rows + [row])[..|rows|] == rows;
  }

  /** The counting loop: buckets every row by how many sources hold it. */
  method TallyStats(rows: seq<ComparisonRow>, total: nat) returns (stats: ComparisonStats)
    ensures stats == StatsOf(rows).(totalUniqueAwbs := total)
  {
    stats := ComparisonStats(total, 0, 0, 0, 0, 0, 0, 0, 0, 0);
    for i := 0 to |rows|
      invariant stats == StatsOf(rows[..i]).(totalUniqueAwbs := total)
    {
      assert rows[..i + 1] == rows[..i] + [rows[i]];
      stats := CountRow(rows[..i], total, stats, rows[i]);
    }
    assert rows[..|rows|] == rows;
  }

  /** One pass of the counting loop: the counters of `counted` become those of `counted` and `row`. */
  method CountRow(ghost counted: seq<ComparisonRow>, total: nat, stats: ComparisonStats, row: ComparisonRow)
    returns (next: ComparisonStats)
    requires stats == StatsOf(counted).(totalUniqueAwbs := total)
    ensures next == StatsOf(counted + [row]).(totalUniqueAwbs := total)
  {
    StatsSnoc(counted, row);
    next := stats;
    var count := PresenceCount(row.status);
    if count == 3 {
      next := next.(inAllThree := next.inAllThree + 1);
      if row.weightMatch {
        next := next.(perfectMatches := next.perfectMatches + 1);
      } else {
        next := next.(weightMismatches := next.weightMismatches + 1);
      }
    } else if count == 2 {
      if row.status.inJaster && row.status.inCis { next := next.(inJasterAndCis := next.inJasterAndCis + 1); }
      if row.status.inJaster && row.status.inUnifikasi { next := next.(inJasterAndUnifikasi := next.inJasterAndUnifikasi + 1); }
      if row.status.inCis && row.status.inUnifikasi { next := next.(inCisAndUnifikasi := next.inCisAndUnifikasi + 1); }
      if !row.weightMatch { next := next.(weightMismatches := next.weightMismatches + 1); }
    } else if count == 1 {
      if row.status.inJaster { next := next.(inJasterOnly := next.inJasterOnly + 1); }
      if row.status.inCis { next := next.(inCisOnly := next.inCisOnly + 1); }
      if row.status.inUnifikasi { next := next.(inUnifikasiOnly := next.inUnifikasiOnly + 1); }
    }
  }

  /** The row loop of `compareSheets`: one row pushed per AWB, from the three maps. */
  method BuildRows(data: ParsedExcelData, awbs: seq<string>, jasterMap: Lookup, cisMap: Lookup, unifikasiMap: Lookup)
    returns (rows: seq<ComparisonRow>)
    requires forall awb :: jasterMap.Get(awb) == LastWeight(data.jaster, awb)
    requires forall awb :: cisMap.Get(awb) == LastWeight(data.cis, awb)
    requires forall awb :: unifikasiMap.Get(awb) == LastWeight(data.unifikasi, awb)
    ensures |rows| == |awbs|
    ensures forall k :: 0 <= k < |awbs| ==> rows[k] == RowFor(data, awbs[k])
  {
    rows := [];
    for i := 0 to |awbs|
      invariant |rows| == i
      invariant forall k :: 0 <= k < i ==> rows[k] == RowFor(data, awbs[k])
    {
      var row := BuildRow(awbs[i], jasterMap, cisMap, unifikasiMap);
      rows := rows + [row];
    }
  }

  /**
   * `compareSheets`: builds the three maps, walks the union of their keys
   * pushing one row per AWB, then counts the rows.
   */
  method CompareSheets(data: ParsedExcelData, timestamp: string) returns (result: ComparisonResult)
    ensures result.rows == EngineRows(data)
    ensures result.stats == StatsOf(result.rows)
    ensures result.timestamp == timestamp
  {
    var jasterMap := BuildLookup(data.jaster);
    var cisMap := BuildLookup(data.cis);
    var unifikasiMap := BuildLookup(data.unifikasi);
    var allAwbs := NewSet(jasterMap.keys + cisMap.keys + unifikasiMap.keys);

    assert allAwbs == AllAwbs(data);

    var rows := BuildRows(data, allAwbs, jasterMap, cisMap, unifikasiMap);
    assert rows == EngineRows(data);

    var stats := TallyStats(rows, |allAwbs|);
    result := ComparisonResult(rows, stats, timestamp);
  }
}
