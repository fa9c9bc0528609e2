# Excel sheet comparison: a Dafny model

This project models the core of a web tool that reconciles three spreadsheets
of air waybills (AWBs): the JASTER, CIS and UNIFIKASI sheets of one workbook.
The parser finds each sheet's AWB and weight columns by alias and turns the
sheet's rows into `(awb, weight)` records. The comparison engine joins the
three record lists on the AWB. It emits one row per distinct AWB, holding the
three weights (or their absence), the presence flags, a weight match within
0.01 and the discrepancy tags. It then counts the rows by presence pattern and
by match. The rest of the core consumes those rows:

- the Excel report (Summary, Detailed Comparison, Issues Only);
- the `useTableFilters` hook (search, type filter, sort, pagination, sort toggle);
- three tables: the AWB presence table, the older comparison table that the dashboard no longer uses, and the weight table built on the hook.

Modules, one file each, lemma modules beside the modules they describe:

| module | models |
|---|---|
| `Wrappers`, `Seqs` | `Option`/`Result`; `filter`, `join`, insertion-ordered `Set`/`Map` keys (`Dedup`), ASCII `toLowerCase`/`trim`/`includes`, and counts written in decimal |
| `Types` | `lib/types.ts` and the constants of `lib/constants.ts` |
| `ComparisonEngine`, `EngineProperties` | `compareSheets` |
| `ExcelParser`, `ParserProperties` | `findColumn`, the required-sheet check, the per-sheet extraction |
| `ExportUtils`, `ReportProperties` | the three report sheets, and decoders that read them back |
| `RowOrder` | the sort comparator shared by the tables, `Array.prototype.sort`, and the filter-then-sort-in-place step |
| `TableFilters`, `TableFilterProperties` | `useTableFilters` |
| `AwbComparisonTable`, `AwbTableProperties` | `components/awb-comparison-table.tsx` |
| `ComparisonTable`, `ComparisonTableProperties` | `components/comparison-table.tsx` |
| `WeightComparisonTable`, `WeightTableProperties` | `components/weight-comparison-table.tsx` |

The code is imperative where the program is:

- `CompareSheets` builds the three lookups, the AWB set and the rows in loops, then tallies the counters. Each loop is proved against the specification functions `EngineRows` and `StatsOf`.
- `FindColumn` is the candidate loop with its early returns.
- The hook's and the components' state is a class per component whose setters update fields.
- `filtered.sort(...)` sorts an `array` in place. With no search term and no filter, that array is the caller's own.

Two behaviours of the code differ from what its own declarations suggest, and
the model follows the code:

- **Last record wins.** Each source's lookup is a JavaScript `Map` built from all records, so an AWB repeated within one source keeps its first key position but takes its last weight (`LastWeight`, `EngineProperties.LastRecordWins`).
- **No duplicate detection.** `lib/types.ts:24-29` declares `hasDuplicates` and `duplicateInfo` on a row, and the hook offers a `duplicates` filter (`lib/hooks/useTableFilters.ts:80`). Yet the row the engine pushes (`lib/comparison-engine.ts:40-48`) sets neither field and carries no duplicate tag. The model always sets `hasDuplicates` to false (`EngineProperties.NoRowHasDuplicates`), so the `duplicates` filter shows no rows.

## Model

| member | source | states |
|---|---|---|
| ComparisonEngine.LastWeight | lib/comparison-engine.ts:7-9 | a source has a weight for an AWB iff one of its records carries the AWB |
| ComparisonEngine.LastWeightIsLastRecord | lib/comparison-engine.ts:7-9 | the looked-up weight is that of the last record with the AWB |
| ComparisonEngine.BuildLookup | lib/comparison-engine.ts:7-9 | the map's keys are the distinct AWBs in first-appearance order, and each maps to the last record's weight |
| ComparisonEngine.NewSet | lib/comparison-engine.ts:12 | the set holds each AWB once, in first-insertion order |
| ComparisonEngine.BuildRow | lib/comparison-engine.ts:18-48 | the row built for an AWB has the looked-up weights, the presence flags, the match and the tags the engine defines |
| ComparisonEngine.BuildRows | lib/comparison-engine.ts:17-49 | the row loop pushes one row per AWB of the set, in set order, each the row the engine defines from the three sources |
| ComparisonEngine.TallyStats | lib/comparison-engine.ts:65-86 | the counting loop, with its count-3/2/1 branches, yields the per-pattern row counts of `StatsOf` |
| ComparisonEngine.CountRow | lib/comparison-engine.ts:66-85 | one pass of the counting loop turns the counters of the rows seen so far into those of the rows seen and the next row |
| ComparisonEngine.CompareSheets | lib/comparison-engine.ts:3-93 | the rows are one row per AWB of the union; the counters are those of the rows; the timestamp is the one passed in |
| EngineProperties.AllAwbsIsDistinctRecordAwbs | lib/comparison-engine.ts:12 | the union of the three key sets is the distinct AWBs of all records, scanning JASTER, CIS, UNIFIKASI |
| EngineProperties.OneRowPerAwb | lib/comparison-engine.ts:12-17 | row AWBs are pairwise distinct and are exactly the AWBs that occur in some record |
| EngineProperties.RowsInFirstAppearanceOrder | lib/comparison-engine.ts:12-17 | rows follow the first appearance of their AWB across JASTER, CIS, UNIFIKASI |
| EngineProperties.PresenceMatchesSources | lib/comparison-engine.ts:18-26 | `inX` holds iff source X holds the AWB, iff the X weight is non-null; every row has a source |
| EngineProperties.JasterWeightIsLastRecord | lib/comparison-engine.ts:18 | a row's JASTER weight is the last JASTER record's weight, 0 included |
| EngineProperties.CisWeightIsLastRecord | lib/comparison-engine.ts:19 | a row's CIS weight is the last CIS record's weight, 0 included |
| EngineProperties.UnifikasiWeightIsLastRecord | lib/comparison-engine.ts:20 | a row's UNIFIKASI weight is the last UNIFIKASI record's weight, 0 included |
| EngineProperties.NoRowHasDuplicates | lib/comparison-engine.ts:40-48 | no row is flagged as duplicated |
| EngineProperties.WeightMatchIsFirstWeightTolerance | lib/comparison-engine.ts:29-30 | weights match iff at most one is present, or every present one is strictly within 0.01 of the first present one |
| EngineProperties.ToleranceIsStrict | lib/comparison-engine.ts:30 | 10 and 10.009 match; 10 and 10.01 do not |
| EngineProperties.MatchIsRelativeToFirstWeight | lib/comparison-engine.ts:30 | 10, 10.009 and 9.991 match although the last two are 0.018 apart |
| EngineProperties.DiscrepanciesAreApplicableTags | lib/comparison-engine.ts:33-38 | the tags are the in-order subsequence of the four tags whose conditions hold |
| EngineProperties.DiscrepancyTags | lib/comparison-engine.ts:33-38 | each tag is present iff its condition holds; no tag iff all three sources hold the AWB and the weights match |
| EngineProperties.TagMembership | lib/comparison-engine.ts:33-38 | each of the four tags is in the list iff its push condition holds, and the list is empty iff all three flags hold and the weights are not a mismatch of two or more |
| EngineProperties.CisOnlyRow | lib/comparison-engine.ts:33-38 | an AWB held only by CIS gets the JASTER and UNIFIKASI tags and no mismatch |
| EngineProperties.LastRecordWins | lib/comparison-engine.ts:7 | of two records for one AWB in one source, the later weight is used |
| EngineProperties.PresenceBucketsPartition | lib/comparison-engine.ts:65-86 | the eight presence patterns split the rows |
| EngineProperties.CountPresenceIsFilter | lib/comparison-engine.ts:67-85 | each presence counter is the number of rows with that pattern |
| EngineProperties.StatsBucketsCoverAllAwbs | lib/comparison-engine.ts:53-86 | the seven presence counters sum to `totalUniqueAwbs` |
| EngineProperties.CountedAsTagged | lib/comparison-engine.ts:69-85 | a row counts as a mismatch iff it carries the mismatch tag, and as perfect iff it has no tag |
| EngineProperties.MismatchesAreFlaggedRows | lib/comparison-engine.ts:69-85 | `weightMismatches` is the number of rows tagged "Weight mismatch"; rows held by one source never count |
| EngineProperties.PerfectMatchesAreCleanRows | lib/comparison-engine.ts:69-75 | `perfectMatches` is the number of rows without tags |
| EngineProperties.PerfectAtMostAllThree | lib/comparison-engine.ts:69-75 | `perfectMatches` never exceeds `inAllThree` |
| EngineProperties.ComparisonStatsMeaning | lib/comparison-engine.ts:52-86 | `totalUniqueAwbs` is the row count; mismatch and perfect counters are the sizes of the tagged and untagged row sets |
| ExcelParser.FindKey | lib/excel-parser.ts:14 | `find` returns the first key equal to the name after lower-casing and trimming both, or none iff no key is |
| ExcelParser.ResolvedColumn | lib/excel-parser.ts:4-21 | the column is null iff no candidate resolves; otherwise it is what the first resolving candidate resolves to |
| ExcelParser.FindColumn | lib/excel-parser.ts:4-21 | the candidate loop with early returns computes `ResolvedColumn` |
| ExcelParser.MissingSheets | lib/excel-parser.ts:33-34 | a sheet is reported missing iff it is required and absent from the workbook |
| ParserProperties.ResolvedColumnIsRowKey | lib/excel-parser.ts:4-21 | a resolved column is a key of the row |
| ParserProperties.FirstResolvingCandidateWins | lib/excel-parser.ts:7-18 | the first candidate that matches wins, whatever later ones match |
| ParserProperties.ExactMatchBeatsFolded | lib/excel-parser.ts:9-11 | an exact key is taken before any case-insensitive one |
| ParserProperties.FoldedMatchIsFirstMatchingKey | lib/excel-parser.ts:14-17 | a case-insensitive hit is the first row key, in key order, that matches |
| ParserProperties.UnresolvedIffNoMatch | lib/excel-parser.ts:4-21 | for non-blank candidates, null iff no candidate is a key, exactly or up to case and surrounding blanks |
| ParserProperties.AliasesNotBlank | lib/constants.ts:18-31 | every alias the parser uses is non-blank |
| ParserProperties.ExtractSheetConcat | lib/excel-parser.ts:48-71 | extraction works row by row and keeps row order |
| ParserProperties.ExtractSheetSingle | lib/excel-parser.ts:49-52 | a row is kept iff its AWB column resolves to a truthy cell |
| ParserProperties.ExtractedAwbsAreTrimmed | lib/excel-parser.ts:68 | every extracted AWB is trimmed |
| ParserProperties.UnresolvedWeightIsZero | lib/excel-parser.ts:69 | a row whose weight column does not resolve gets weight 0 |
| ParserProperties.UnparsableWeightIsZero | lib/excel-parser.ts:69 | a weight that parses to NaN becomes 0 |
| ParserProperties.BlankAwbCellIsKept | lib/excel-parser.ts:49-68 | a cell of blanks is truthy, so the row is kept with an empty AWB |
| ParserProperties.MissingSheetsInOrder | lib/excel-parser.ts:33-34 | the missing sheets are listed in JASTER, CIS, UNIFIKASI order |
| ParserProperties.OnlyJasterMissesTwo | lib/excel-parser.ts:33-34 | a workbook holding only JASTER misses CIS and UNIFIKASI, in that order |
| ParserProperties.ParseFailsIffSheetMissing | lib/excel-parser.ts:32-38 | parsing fails iff a required sheet is absent, with "Missing required sheets: " and the absent names joined by ", " |
| ParserProperties.MissingTwoSheetsMessage | lib/excel-parser.ts:37 | a workbook with only JASTER fails with "Missing required sheets: CIS, UNIFIKASI" |
| ExportUtils.CountAt | lib/export-utils.ts:14-25 | a summary count is read back only from a row holding its heading and a whole number |
| ExportUtils.WeightCellRoundTrip | lib/export-utils.ts:34-36 | a null weight renders as "—" and a present one, 0 included, as the number; both read back |
| ExportUtils.YesNoRoundTrip | lib/export-utils.ts:37-40 | the flags render as "Yes" or "No" and read back |
| ExportUtils.DetailedRecordRoundTrip | lib/export-utils.ts:32-42 | a detailed record shows the row's AWB, weights, flags, match and issues text |
| ExportUtils.DetailedSheetOnePerRow | lib/export-utils.ts:32 | the detailed sheet has one record per row, in row order |
| ExportUtils.IssuesTextMeaning | lib/export-utils.ts:41 | "Issues" is "None" exactly for a row without tags, and otherwise starts with the first tag |
| ExportUtils.IssueRowsSplit | lib/export-utils.ts:48-56 | the issues sheet keeps exactly the rows with tags; with the tagless rows they make up all rows |
| ExportUtils.SummaryRoundTrip | lib/export-utils.ts:9-26 | the summary is sixteen rows whose labelled counts read back as the statistics |
| ReportProperties.IssuesSheetSize | lib/export-utils.ts:48-56 | the issues sheet of a comparison holds `totalUniqueAwbs - perfectMatches` records |
| ReportProperties.EngineIssuesNeverNone | lib/export-utils.ts:48-56 | an engine row's tags, joined by ", ", never read "None" |
| ReportProperties.IssueRecordsOfEngineRows | lib/export-utils.ts:48-56 | on engine rows, each issues-only record comes from a row with tags, and its "Issues" field is the tags joined by ", " with no "None" fallback |
| ReportProperties.IssuesSheetNeverNone | lib/export-utils.ts:48-56 | in the report of a comparison, no issues-only record reads "None" |
| ReportProperties.ReportOfComparison | lib/export-utils.ts:9-59 | the sheets come in the order Summary, Detailed Comparison, Issues Only, with the statistics, one record per AWB, one per AWB with issues |
| RowOrder.LocaleCompare | lib/hooks/useTableFilters.ts:113 | the string comparison returns -1, 0 or 1 |
| RowOrder.LocaleCompareZeroIffEqual | lib/hooks/useTableFilters.ts:113 | two AWBs compare equal iff they are the same string |
| RowOrder.LocaleCompareAntisymmetric | lib/hooks/useTableFilters.ts:113 | swapping the strings negates the result |
| RowOrder.LocaleCompareTransitive | lib/hooks/useTableFilters.ts:113 | the string order is transitive |
| RowOrder.DescIsSwappedAsc | lib/hooks/useTableFilters.ts:113-116 | the descending comparator is the ascending one with its arguments swapped |
| RowOrder.CompareAntisymmetric | lib/hooks/useTableFilters.ts:86-117 | the comparator is antisymmetric for every field and direction |
| RowOrder.CompareTransitive | lib/hooks/useTableFilters.ts:86-117 | the comparator is transitive, null weights comparing as -1 |
| RowOrder.AwbCompareZeroIffSameAwb | lib/hooks/useTableFilters.ts:113 | rows tie on the AWB field iff their AWBs are equal |
| RowOrder.Sort | lib/hooks/useTableFilters.ts:86 | sorting permutes the rows |
| RowOrder.SortSorted | lib/hooks/useTableFilters.ts:86-117 | the sorted rows are ordered by the comparator and are a permutation of the input |
| RowOrder.SortInPlace | lib/hooks/useTableFilters.ts:86 | the array is reordered in place into the sorted rows |
| RowOrder.FilterThenSort | lib/hooks/useTableFilters.ts:55-120 | the memo returns the filtered, sorted rows; with no filter applied it sorts and returns the caller's array, otherwise a fresh one, leaving the caller's array untouched |
| TableFilters.FilterAndSort | lib/hooks/useTableFilters.ts:55-120 | `filteredAndSortedRows` is the search, then the type filter, then the sort, aliasing the caller's array when neither filter applies |
| TableFilters.JsSlice | lib/hooks/useTableFilters.ts:126 | `slice` never returns more rows than it is given |
| TableFilters.TableState.constructor | lib/hooks/useTableFilters.ts:47-53 | the initial state is "", `all`, `awb`, `asc`, page 1 and the initial page size |
| TableFilters.TableState.SetSearchTerm | lib/hooks/useTableFilters.ts:146-148 | a new term is stored and, when it differs, the page resets to 1 |
| TableFilters.TableState.SetFilter | lib/hooks/useTableFilters.ts:146-148 | a new filter is stored and, when it differs, the page resets to 1 |
| TableFilters.TableState.SetSortField | lib/hooks/useTableFilters.ts:50 | sets the field only |
| TableFilters.TableState.SetSortDirection | lib/hooks/useTableFilters.ts:51 | sets the direction only |
| TableFilters.TableState.SetCurrentPage | lib/hooks/useTableFilters.ts:52 | sets the page only |
| TableFilters.TableState.SetPageSize | lib/hooks/useTableFilters.ts:53 | sets the page size only |
| TableFilters.TableState.HandleSort | lib/hooks/useTableFilters.ts:130-139 | the same field flips the direction; another field is selected ascending |
| TableFilters.TableState.ResetPage | lib/hooks/useTableFilters.ts:141-143 | returns to page 1 and changes nothing else |
| TableFilterProperties.SearchMembership | lib/hooks/useTableFilters.ts:59-62 | an empty term keeps all rows; otherwise the rows kept are those whose lower-cased AWB contains the lower-cased term |
| TableFilterProperties.SearchIgnoresCase | lib/hooks/useTableFilters.ts:60-61 | the search gives the same rows for a term and its lower-cased form |
| TableFilterProperties.TypeFilterMembership | lib/hooks/useTableFilters.ts:65-83 | each type filter keeps exactly the rows its condition accepts; `all` keeps the rows unchanged |
| TableFilterProperties.FiltersPreserveOrder | lib/hooks/useTableFilters.ts:59-83 | the filters keep the relative order of the kept rows |
| TableFilterProperties.FilteredAndSortedMeaning | lib/hooks/useTableFilters.ts:55-120 | the output is sorted by the comparator and is a permutation of the rows passing both filters, no longer than the input |
| TableFilterProperties.TotalPagesIsCeiling | lib/hooks/useTableFilters.ts:122 | `totalPages` is the ceiling of `n / pageSize`, 0 iff there are no rows |
| TableFilterProperties.PageIsSlice | lib/hooks/useTableFilters.ts:123-128 | a page from 1 to `totalPages` is the non-empty run from `startIndex` to `endIndex`, at most `pageSize` long |
| TableFilterProperties.PageAtMostPageSize | lib/hooks/useTableFilters.ts:123-128 | no page holds more than `pageSize` rows |
| TableFilterProperties.PagePastLastIsEmpty | lib/hooks/useTableFilters.ts:123-128 | a page past `totalPages` is empty |
| TableFilterProperties.RowOnItsPage | lib/hooks/useTableFilters.ts:122-128 | row `i` appears on page `i / pageSize + 1` at position `i % pageSize` |
| TableFilterProperties.PagesCoverRows | lib/hooks/useTableFilters.ts:122-128 | pages 1 to `totalPages`, read in order, are exactly the rows |
| TableFilterProperties.PageButtonsClamp | components/weight-comparison-table.tsx:221-230 | Previous and Next keep the page in `[1, totalPages]` and stay put exactly at the ends |
| TableFilterProperties.ShownRangeCountsPage | components/weight-comparison-table.tsx:87 | "Showing first-last" spans exactly the rows of the page |
| AwbComparisonTable.FilterAndSort | components/awb-comparison-table.tsx:27-57 | the table's rows are the search, the presence filter, then the AWB order, aliasing the caller's array when nothing is filtered |
| AwbComparisonTable.MissingFrom | components/awb-comparison-table.tsx:83-89 | a source is listed iff it lacks the AWB; the list is as long as the number of absent sources |
| AwbComparisonTable.GetMissingSheets | components/awb-comparison-table.tsx:83-89 | the pushes build `MissingFrom` |
| AwbComparisonTable.AwbTableState.constructor | components/awb-comparison-table.tsx:21-25 | the initial state is "", `all`, `asc`, page 1, 50 rows per page |
| AwbComparisonTable.AwbTableState.SetSearchTerm | components/awb-comparison-table.tsx:64-66 | a new term is stored and, when it differs, the page resets to 1 |
| AwbComparisonTable.AwbTableState.SetFilter | components/awb-comparison-table.tsx:64-66 | a new filter is stored and, when it differs, the page resets to 1 |
| AwbComparisonTable.AwbTableState.ToggleSort | components/awb-comparison-table.tsx:152 | the header flips the direction and the page resets to 1 |
| AwbComparisonTable.AwbTableState.SetPageSize | components/awb-comparison-table.tsx:130 | sets the page size and keeps the page |
| AwbComparisonTable.AwbTableState.PreviousPage | components/awb-comparison-table.tsx:234 | moves to `max(1, page - 1)` |
| AwbComparisonTable.AwbTableState.NextPage | components/awb-comparison-table.tsx:243 | moves to `min(totalPages, page + 1)` |
| AwbTableProperties.FilterMembership | components/awb-comparison-table.tsx:34-50 | each presence filter keeps exactly the rows its condition accepts; `all` keeps all |
| AwbTableProperties.AllSheetsAndMissingAnyPartition | components/awb-comparison-table.tsx:34-50 | "In All Sheets" and "Missing from Any" split the rows |
| AwbTableProperties.OnlyFiltersDisjoint | components/awb-comparison-table.tsx:39-45 | the three "only" filters are pairwise disjoint; together they select the rows held by exactly one source |
| AwbTableProperties.FilterSizesMatchStats | components/awb-comparison-table.tsx:34-50 | on any rows, and so on a comparison, the filters show `inAllThree`, the three single-source counters, and `total - inAllThree` rows |
| AwbTableProperties.OrderedByAwb | components/awb-comparison-table.tsx:27-57 | the table shows the filtered rows in AWB order in the chosen direction |
| AwbTableProperties.PageAgreesWithHook | components/awb-comparison-table.tsx:59-62 | the page without `Math.min` equals the hook's page |
| AwbTableProperties.MissingFromInSourceOrder | components/awb-comparison-table.tsx:83-89 | the missing sources are listed in JASTER, CIS, UNIFIKASI order; the list is empty iff all three hold the AWB |
| AwbTableProperties.BadgeAgreesWithMissingList | components/awb-comparison-table.tsx:68-89 | "All Sheets", "2 Sheets", "1 Sheet Only" and "None" correspond to 0, 1, 2 and 3 missing sources |
| AwbTableProperties.ComparisonRowsHaveSomeSource | components/awb-comparison-table.tsx:68-81 | no row of a comparison is badged "None" |
| AwbTableProperties.MissingListMatchesTags | components/awb-comparison-table.tsx:83-89 | on an engine row, the missing list names exactly the sources its "Missing in" tags name |
| ComparisonTable.FilterAndSort | components/comparison-table.tsx:27-81 | the table's rows are the search, the filter, then the comparator order, aliasing the caller's array when nothing is filtered |
| ComparisonTable.ComparisonTableState.constructor | components/comparison-table.tsx:22-25 | the initial state is "", `all`, `awb`, `asc` |
| ComparisonTable.ComparisonTableState.SetSearchTerm | components/comparison-table.tsx:22 | sets the term only |
| ComparisonTable.ComparisonTableState.SetFilter | components/comparison-table.tsx:23 | sets the filter only |
| ComparisonTable.ComparisonTableState.HandleSort | components/comparison-table.tsx:83-90 | the same field flips the direction; another field is selected ascending |
| ComparisonTableProperties.FilterMembership | components/comparison-table.tsx:36-44 | each filter keeps exactly the rows its condition accepts |
| ComparisonTableProperties.OrderedByComparator | components/comparison-table.tsx:27-81 | the rows shown are sorted, are a permutation of the filtered rows, and are never more than `rows.length` |
| ComparisonTableProperties.FilterAgreesWithHookOnEngineRow | components/comparison-table.tsx:36-44 | on engine rows, the flag-based filters give the hook's weight-based verdicts |
| ComparisonTableProperties.SameViewAsHook | components/comparison-table.tsx:27-81 | on engine rows, this table and the hook show the same rows in the same order |
| ComparisonTableProperties.FiltersMatchTags | components/comparison-table.tsx:36-44 | on engine rows, `mismatches` keeps the rows tagged "Weight mismatch" and `perfect` the untagged rows |
| ComparisonTableProperties.FilterSizesOnEngineRows | components/comparison-table.tsx:36-44 | on any rows the engine builds, the filters show `weightMismatches`, `perfectMatches` and `total - inAllThree` rows |
| ComparisonTableProperties.FilterSizesMatchStats | components/comparison-table.tsx:36-44 | on a comparison, the filters show `weightMismatches`, `perfectMatches` and `total - inAllThree` rows |
| ComparisonTableProperties.StatusBadgeMeaning | components/comparison-table.tsx:92-100 | "Kecocokan Sempurna" iff perfect; "Sebagian" iff neither perfect nor tagged; otherwise "<n> Masalah", whose number reads back as the tag count |
| ComparisonTableProperties.EngineRowBadge | components/comparison-table.tsx:92-100 | an engine row is never "Sebagian", and an imperfect one has one or two problems |
| WeightComparisonTable.MaxOf | components/weight-comparison-table.tsx:152 | `Math.max` is a present weight no smaller than any other |
| WeightComparisonTable.MinOf | components/weight-comparison-table.tsx:152 | `Math.min` is a present weight no larger than any other |
| WeightComparisonTable.MaxDiff | components/weight-comparison-table.tsx:149-152 | `maxDiff` is never negative |
| WeightComparisonTable.PreviousPage | components/weight-comparison-table.tsx:221 | sets the page to `max(1, page - 1)` through the hook's setter, changing nothing else |
| WeightComparisonTable.NextPage | components/weight-comparison-table.tsx:230 | sets the page to `min(totalPages, page + 1)` through the hook's setter, changing nothing else |
| WeightTableProperties.WeightStatusCases | components/weight-comparison-table.tsx:43-53 | "Match" iff all three weights are present and match, "Mismatch" iff present and not matching, "Incomplete" iff some weight is null |
| WeightTableProperties.WeightStatusAgreesWithHookFilters | components/weight-comparison-table.tsx:43-53 | "Match" rows are the hook's `perfect` rows and "Incomplete" rows its `missing` rows |
| WeightTableProperties.WeightStatusOnEngineRow | components/weight-comparison-table.tsx:43-53 | on engine rows, "Match" iff untagged, "Mismatch" iff held by all three and tagged, "Incomplete" iff some "Missing in" tag |
| WeightTableProperties.MaxDiffIsSpread | components/weight-comparison-table.tsx:149-152 | `maxDiff` is the largest minus the smallest present weight when two or more are present, else 0 |
| WeightTableProperties.DifferenceShownIffWeightsDiffer | components/weight-comparison-table.tsx:196-200 | the Difference cell shows a value iff two present weights differ |
| WeightTableProperties.MismatchShowsDifference | components/weight-comparison-table.tsx:196-200 | on engine rows, non-matching weights spread by at least 0.01, so a difference is shown |
| WeightTableProperties.MatchBoundsDifference | components/weight-comparison-table.tsx:152 | on engine rows, matching weights spread by less than 0.02 |
| WeightTableProperties.MatchWithDifferenceAboveTolerance | components/weight-comparison-table.tsx:43-53 | weights 10, 10.009 and 9.991 are badged "Match" with a difference of 0.018 |
| WeightTableProperties.CellHighlightRule | components/weight-comparison-table.tsx:158-192 | a cell shows its weight iff present, and is highlighted iff present and the weights do not match |
| WeightTableProperties.HighlightIffFlagged | components/weight-comparison-table.tsx:158-192 | on engine rows, some cell is highlighted iff the row is tagged "Weight mismatch" |

## Left out

- Reading and writing workbooks is not modelled: `XLSX.read`, `sheet_to_json`, the FileReader plumbing, `aoa_to_sheet`, `json_to_sheet`, `book_append_sheet` and `writeFile`. The parser starts from a workbook given as its sheet names and each sheet's JSON rows, and the exporter ends with the list of named sheets.
- `Number.parseFloat` and `String(number)` are JavaScript primitives. They enter as the two functions of `ExcelParser.JsConversions`, with `None` standing for `NaN`.
- Weights are real numbers, not IEEE doubles. The `< 0.01` test and `max - min` are exact here, so results at the boundary can differ from the browser's: `10.01 - 10` is `0.00999…` in doubles.
- `localeCompare` is modelled as ordinal comparison of characters. `toLowerCase` and `trim` are restricted to ASCII.
- `Object.keys` order is taken as given by the row's key list. The rule that integer-like keys come first is not modelled.
- Timestamps are not modelled. `new Date()` in `compareSheets` is a parameter, and the summary's `toLocaleString()` text is a string parameter. The export file name is not modelled.
- React mechanics are not modelled: rendering, `useMemo` caching, `memo`, `useCallback`, and the debounced search term, which the weight table computes but never uses. A re-render is a call of the model's functions on the current state. The reset effect is folded into the setters that change its dependencies.
- The number formatting of the cells (`toFixed(2)`) and the badge colours are not modelled.
- Console logging in the parser is not modelled.
- The percentages of the statistics view are float divisions and are not part of this model. Neither are the dashboard, the uploader, the error boundary and the page.
- RowOrder.Sort: stability, which ECMAScript requires, holds by construction (an insertion sort that places a row after every row that does not compare greater), but is not stated as a lemma.
- TableFilters.TotalPages: requires a positive page size. The page-size selects only offer 25, 50, 100 and 200, and `Math.ceil(n / 0)` would be `Infinity`.
- AwbComparisonTable.AwbTableState.SetPageSize: changing the page size does not reset the page, in this table as in the hook. A page past the new last page is empty (`TableFilterProperties.PagePastLastIsEmpty`).
