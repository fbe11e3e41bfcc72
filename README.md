# Published data source manager — a Dafny model

The tool lists the published data sources of a Tableau site and lets the user pick one by its ID.
It then shows every field of that data source: name, caption, data type, default aggregation, and
the formula of each calculated field. This project models the record logic of that tool and proves
what it does.

It models four pieces:

- **The catalog join of `get_luid`** (`Catalog`).
  - The calculated fields lose every `[` and `]` in their qualified names.
  - The published data sources get the IDs 1..N in listing order.
  - The fields are left-joined onto the data sources, matching the field's owner name to the data source name.
  - Rows without a `luid` are dropped.
- **The selection of `get_luid`** (`Catalog`).
  - The parsed ID is checked against the index.
  - The rows of the chosen `luid` are kept, with `datasource_name` overwritten by the chosen name.
- **The join and column drop of `get_metadata`** (`Metadata`). The field list of the VizQL read-metadata service is left-joined onto the scoped rows, matching `fieldName` to `fullyQualifiedName`. The housekeeping columns are then dropped.
- **The `while True` loop of `main`** (`Session`). It is a method over a supplied sequence of rounds. It reports only for a non-empty selection, and goes on only while `input().strip().lower() == 'y'`.

The other modules:

- `Merge` holds pandas' `merge(how='left')` on sequences of records: left order kept, one row per right match in right order, and a null right side for an unmatched left row.
- `Text` holds the bracket removal and Python's `str.strip()` and `str.lower()`.
- `Scenarios` runs concrete sessions through the model.

Choices the code makes that a reader might not expect:

- A `pandas` KeyError on a missing column is a crash. Each one is modelled as an as-written function returning `Result`; the rest of the model uses a corrected total version (see Findings).
- The code gives an empty catalog, with no published data source, no special handling: its merge raises (see Findings).
- A qualified name written as `[Sales].[Profit Ratio]` becomes `Sales.Profit Ratio`, not `Profit Ratio`. Such a field therefore gets no formula when the service names the field `Profit Ratio` (`Scenarios.DottedQualifiedNameKeepsDot`). The model follows the code.
- Two published data sources with the same name both match every field of that name (fan-out). Selecting either one shows the fields owned by that name.

## Model

| member | source | states |
|---|---|---|
| Merge.LeftJoin | published_datasource_manager.py:76 | pandas' `merge(how='left')`, used at line 76 and again at line 156: per left row, in left order, one row per matching right row in right order, or one row with a null right side; its properties are the lemmas below |
| Merge.MatchesSingle | published_datasource_manager.py:76 | one right row matches a left row exactly when their keys are equal |
| Merge.MatchesAppend | published_datasource_manager.py:76 | matching works piece by piece over the right side, so each matching right row is kept once per occurrence, in right order |
| Merge.LeftJoinLength | published_datasource_manager.py:76 | the left join has, per left row, max(1, number of right rows with its key) rows, so never fewer rows than the left side |
| Merge.LeftJoinAppend | published_datasource_manager.py:76 | the join keeps left order: it distributes over concatenation of the left side |
| Merge.LeftJoinSingle | published_datasource_manager.py:76 | one left row yields max(1, k) rows all carrying it, and exactly the single null-right row when nothing matches |
| Merge.LeftJoinSound | published_datasource_manager.py:76 | every output row carries a left row; its right side is a right row with the same key, or null only when no right row has that key |
| Merge.LeftJoinComplete | published_datasource_manager.py:76 | every matching (left, right) pair is in the output, and every unmatched left row appears with a null right side |
| Text.StripBrackets | published_datasource_manager.py:66 | the result has no `[` or `]` and is no longer than the input |
| Text.StripBracketsAppend | published_datasource_manager.py:66 | bracket removal works piece by piece, so the kept characters keep their order |
| Text.StripBracketsKeeps | published_datasource_manager.py:66 | a name without brackets is left unchanged |
| Text.StripBracketsEnclosed | published_datasource_manager.py:66 | `[name]` becomes `name` |
| Text.StripBracketsIdempotent | published_datasource_manager.py:66 | removing brackets twice is removing them once |
| Text.StripBracketsCounts | published_datasource_manager.py:66 | every character other than a bracket occurs as often after removal as before, and no bracket is left |
| Text.LStrip | published_datasource_manager.py:179 | `str.lstrip()` with Python's whitespace set; its shape is stated by `LStripShape` |
| Text.RStrip | published_datasource_manager.py:179 | `str.rstrip()` with Python's whitespace set; its shape is stated by `RStripShape` |
| Text.Strip | published_datasource_manager.py:179 | `str.strip()` is `rstrip` after `lstrip` |
| Text.LStripShape | published_datasource_manager.py:179 | `lstrip` removes an all-whitespace prefix and leaves no leading whitespace |
| Text.RStripShape | published_datasource_manager.py:179 | `rstrip` removes an all-whitespace suffix and leaves no trailing whitespace |
| Text.LStripSkipsSpace | published_datasource_manager.py:179 | leading whitespace does not change the result of `lstrip` |
| Text.RStripSkipsSpace | published_datasource_manager.py:179 | trailing whitespace does not change the result of `rstrip` |
| Text.LowerChar | published_datasource_manager.py:179 | a character lower-cases to `y` exactly when it is `y` or `Y` |
| Text.Lower | published_datasource_manager.py:179 | the model's `Lower` keeps the length and maps each character (Python's `lower()` can lengthen a string, which the `y` test does not notice) |
| Text.SaysYes | published_datasource_manager.py:179-180 | the continuation test `input().strip().lower() == 'y'`; characterised by `SaysYesIff` |
| Text.YesAtSaysYes | published_datasource_manager.py:179-180 | one `y` or `Y` surrounded only by whitespace continues the loop |
| Text.SaysYesHasYesAt | published_datasource_manager.py:179-180 | an answer that continues the loop is one `y` or `Y` surrounded only by whitespace |
| Text.SaysYesIff | published_datasource_manager.py:179-180 | the loop continues iff the answer is one `y` or `Y` with only whitespace around it |
| Catalog.Normalize | published_datasource_manager.py:63-68 | a flattened field's name is its name with the brackets removed (so bracket-free), it keeps its formula, and the owner name of its `datasource` exactly when it has one |
| Catalog.NormalizeAll | published_datasource_manager.py:63-68 | every field is normalised, one for one, in order |
| Catalog.NormalizeAllAppend | published_datasource_manager.py:63-68 | normalisation keeps field order |
| Catalog.NormalizedNamesBracketFree | published_datasource_manager.py:66 | no normalised name holds a bracket, and a name without brackets is kept as it was |
| Catalog.RangeIndex | published_datasource_manager.py:71 | the default index of N rows is 0..N-1 |
| Catalog.Shift | published_datasource_manager.py:72 | `index += 1` adds one to every label |
| Catalog.Ids | published_datasource_manager.py:71-73 | the data source listed at position i (from 0) gets the ID i + 1 |
| Catalog.IdsAreOneToN | published_datasource_manager.py:87 | `n in datasources_df.index` holds iff 1 <= n <= N |
| Catalog.Loc | published_datasource_manager.py:88 | `df.loc[n]` on the unique labels 1..N: the row labelled `n`. pandas raises KeyError on a missing label, but line 87's `in` test means the code never looks one up; `None` is the model's value for that case. Pinned by `LocOnConsecutive` |
| Catalog.LocOnConsecutive | published_datasource_manager.py:88 | `.loc[n]` on labels c..c+N-1 finds row n - c, and nothing outside that range |
| Catalog.DropNullLuid | published_datasource_manager.py:78 | `dropna` on `luid` never adds rows; `DropNullLuidExact` says which rows it keeps |
| Catalog.DropNullLuidExact | published_datasource_manager.py:78 | a row survives `dropna` iff it comes from a joined row whose data source side is present, as that field next to that data source |
| Catalog.DropNullLuidAppend | published_datasource_manager.py:78 | `dropna` keeps row order |
| Catalog.BuildCatalog | published_datasource_manager.py:63-78 | lines 63-78 without their KeyErrors: normalise the fields, left-join them on the owner name, drop the rows without `luid`; its properties are the lemmas below |
| Catalog.BuildCatalogIsInnerJoin | published_datasource_manager.py:76-78 | the left join followed by `dropna` on `luid` equals the inner join of fields and published data sources |
| Catalog.RowsForExact | published_datasource_manager.py:76-78 | one field's rows are exactly that field next to each published data source of its owner's name |
| Catalog.RowsForLength | published_datasource_manager.py:76-78 | a field owned by k published data sources yields k rows, and none when no published name matches |
| Catalog.InnerJoinAppend | published_datasource_manager.py:76-78 | the inner join keeps field order |
| Catalog.BuildCatalogByField | published_datasource_manager.py:76-78 | the catalog is built field by field: the first field's rows, then the rest |
| Catalog.BuildCatalogExact | published_datasource_manager.py:76-78 | a row is in the catalog iff it pairs a normalised field with a published data source whose name is the field's owner, so no orphan survives |
| Catalog.BuildCatalogRows | published_datasource_manager.py:76-78 | every catalog row has a bracket-free name, and its `datasource_name` is the name of the published data source whose luid it carries |
| Catalog.BuildCatalogLength | published_datasource_manager.py:76-78 | the catalog has one row per (field, published data source of its owner's name) pair |
| Catalog.BuildCatalogAppend | published_datasource_manager.py:63-78 | the catalog keeps the order of the field query |
| Catalog.BuildCatalogAsWritten | published_datasource_manager.py:63-78 | the code as written succeeds iff there is a field, some field has no owner, some field has an owner, and some data source is published; it then equals the corrected catalog. When both join columns are missing the error names `name`, the `right_on` column |
| Catalog.AsWrittenRaisesWithoutFields | published_datasource_manager.py:66 | with no calculated field the code raises, where the catalog is empty |
| Catalog.AsWrittenRaisesWhenEveryFieldOwned | published_datasource_manager.py:68 | when every field has an owner, dropping `datasource` raises, although the catalog has a row |
| Catalog.AsWrittenRaisesWhenNoFieldOwned | published_datasource_manager.py:76 | when no field has an owner and some data source is published, the merge raises for the missing `datasource_name`, where the catalog is empty |
| Catalog.AsWrittenRaisesWithoutSources | published_datasource_manager.py:76 | with no published data source, the merge raises for the missing `name`, also when no field has an owner; the catalog is empty and every ID is refused |
| Catalog.ChosenDatasource | published_datasource_manager.py:84-88 | a data source is chosen iff the input parsed as an integer n with 1 <= n <= N, and it is then the n-th listed one |
| Catalog.ScopeTo | published_datasource_manager.py:95-96 | the scoped rows are no more than the catalog, and each carries the chosen luid and the chosen name |
| Catalog.ScopeToExact | published_datasource_manager.py:95-96 | a row is scoped iff a catalog row of the chosen luid gives it, with `datasource_name` overwritten |
| Catalog.ScopeToAppend | published_datasource_manager.py:95 | scoping keeps row order |
| Catalog.Select | published_datasource_manager.py:84-103 | the value `get_luid` returns: `None`, or the catalog rows of the chosen luid with the chosen name; characterised by `SelectSpec` |
| Catalog.SelectSpec | published_datasource_manager.py:84-103 | `get_luid` returns rows iff the input is an integer in 1..N; those are exactly the scoped rows of the n-th data source |
| Catalog.ScopeRowsFor | published_datasource_manager.py:95-96 | with distinct luids, scoping one field's rows to a data source keeps the row pairing the field with that data source, if its owner name matches, and nothing else |
| Catalog.ScopeInnerJoin | published_datasource_manager.py:95-96 | with distinct luids, scoping the inner join to a data source gives the fields owned by its name, in order |
| Catalog.SelectChosenFields | published_datasource_manager.py:84-97 | choosing ID n yields exactly the fields owned by the n-th data source's name, each next to it, in query order |
| Catalog.SelectRejects | published_datasource_manager.py:98-103 | non-numeric input, 0 and N + 1 give no selection, and no ID is accepted with no published data source |
| Metadata.RequestLuid | published_datasource_manager.py:138 | the luid of the read-metadata request is that of the first scoped row; `PassReportSpec` shows it is the chosen data source's |
| Metadata.DropHousekeeping | published_datasource_manager.py:158 | dropping the columns keeps the field's own columns unchanged and takes the formula from the matched row, null when there is none |
| Metadata.DropAll | published_datasource_manager.py:158 | the drop is row by row and keeps the row count |
| Metadata.MetadataReport | published_datasource_manager.py:151-158 | lines 151-158 without their KeyError: left-join the returned fields with the scoped rows by name, then drop the housekeeping columns; its properties are the lemmas below |
| Metadata.MetadataReportAsWritten | published_datasource_manager.py:151-158 | the code as written succeeds iff the service returned a field, and then equals the corrected report |
| Metadata.CountQualifiedIsMatches | published_datasource_manager.py:156 | the matches of a field are the scoped rows of its qualified name |
| Metadata.MetadataReportLength | published_datasource_manager.py:156-158 | the report has, per returned field, max(1, number of scoped rows with that qualified name) rows |
| Metadata.TotalFanOutIsExpected | published_datasource_manager.py:156 | the join's fan-out is that sum |
| Metadata.DropAllAppend | published_datasource_manager.py:158 | the column drop keeps row order |
| Metadata.MetadataReportAppend | published_datasource_manager.py:156-158 | the report keeps the order of the returned fields |
| Metadata.FieldRowsSound | published_datasource_manager.py:156-158 | every row of a field keeps its name, caption, data type and aggregation, and has a formula only from a scoped row of its name |
| Metadata.FieldRowsComplete | published_datasource_manager.py:156-158 | every scoped row of a field's name gives that field a row with its formula |
| Metadata.FieldRowsCount | published_datasource_manager.py:156-158 | a field with k matches has max(1, k) rows, and is the single formula-less row exactly when k = 0 |
| Metadata.AsWrittenRaisesOnEmptyResponse | published_datasource_manager.py:156 | an empty response makes the code raise, where the report is empty |
| Session.PassReport | published_datasource_manager.py:170-178 | one pass: a report only for a selection that is neither `None` nor empty; characterised by `PassReportSpec` |
| Session.PassReportSpec | published_datasource_manager.py:170-178 | a pass reports iff the selection is neither `None` nor empty; the report requests the chosen luid, is titled with the chosen name, and holds its metadata joined with the chosen rows |
| Session.PassReportIff | published_datasource_manager.py:173-174 | with distinct luids, a pass reports iff the chosen data source owns a calculated field |
| Session.PassesOf | published_datasource_manager.py:163-183 | the pass outcomes are the rounds', one for one |
| Session.Run | published_datasource_manager.py:163-183 | the session as a function of the pass outcomes: reports appended in order, stopping after the first pass not answered `y`; the loop `RunSession` is proved to compute it |
| Session.RunStep | published_datasource_manager.py:170-183 | one pass prints its report, then either stops with the user declining or leaves the rest of the session to the next passes |
| Session.RunSession | published_datasource_manager.py:162-183 | the loop prints the reports, counts the passes and records the decline exactly as the session function does |
| Session.RunDeclinedIff | published_datasource_manager.py:179-183 | the session ends by declining iff some pass was not answered `y` |
| Session.RunPasses | published_datasource_manager.py:163-183 | every pass but the last was answered `y`, and the last was not, unless the rounds ran out |
| Session.RunReports | published_datasource_manager.py:173-178 | the reports printed are those of the passes made, in order |
| Session.PassesAgain | published_datasource_manager.py:179-183 | pass i asks for another pass iff its answer strips and lower-cases to `y` |
| Session.PassesReportIff | published_datasource_manager.py:173-174 | pass i prints a report iff its selection is neither `None` nor empty |
| Session.SessionOfRounds | published_datasource_manager.py:162-183 | the session declines iff some answer does not strip and lower-case to `y`; each pass reports iff its selection is non-empty |
| Scenarios.MetadataOfOneRow | published_datasource_manager.py:156-158 | a field joined with one row of its own name gets that row's formula, and one of another name gets none |
| Scenarios.SiteFieldsDoNotRaise | published_datasource_manager.py:63-78 | on a site with one owned and one owner-less calculated field, the code as written builds the catalog without raising |
| Scenarios.SiteFieldsNormalized | published_datasource_manager.py:63-68 | `[Profit Ratio]` of Sales normalises to `Profit Ratio`, and the other field has no owner |
| Scenarios.SalesOwnsProfitRatio | published_datasource_manager.py:95-96 | of those fields only `Profit Ratio` is owned by Sales |
| Scenarios.ChoosingSalesSelectsProfitRatio | published_datasource_manager.py:63-97 | choosing ID 1 of Sales and HR selects Sales' one calculated field, brackets stripped; the owner-less field is dropped |
| Scenarios.SalesMetadataReport | published_datasource_manager.py:156-158 | the code as written does not raise on these fields, and only `Profit Ratio` of Profit, Sales and Profit Ratio gets a formula |
| Scenarios.ChoosingSalesReportsItsFormula | published_datasource_manager.py:170-178 | the whole pass requests L1, is titled Sales, and shows the formula only for `Profit Ratio` |
| Scenarios.NonNumericAnswerEndsWithoutReport | published_datasource_manager.py:101-103 | non-numeric input gives no report, and answering `n` then ends the session after one pass |
| Scenarios.EmptyCatalogNeverReports | published_datasource_manager.py:87 | with no published data source no pass reports |
| Scenarios.ContinuationAnswers | published_datasource_manager.py:179-180 | `y` and ` Y\n` continue; `yes`, the empty answer and `n` do not |
| Scenarios.DottedQualifiedNameKeepsDot | published_datasource_manager.py:66 | `[Sales].[Profit Ratio]` becomes `Sales.Profit Ratio` |

## Left out

- Tableau authentication and the two GraphQL metadata queries (lines 22-60): the model takes the `calculatedFields` and `publishedDatasources` arrays as inputs.
- `get_token` and the HTTP POST of `get_metadata` (lines 107-126, 133-150): the model takes the read-metadata service as a function from luid to the `data` array.
- The token is therefore not modelled.
- Every `print` and banner: terminal presentation only.
- The internals of `input()` and `int()`: the ID arrives already parsed (`None` when `int()` raises ValueError), and the continuation answer arrives as a string.
- End of input on `input()`: the model's session also stops when the supplied rounds run out.
- Text.Lower: maps only ASCII letters. Python's `lower()` maps all of Unicode, but only `y` and `Y` lower-case to `y`, so the loop's decision is exact.
- pandas internals: only the left join, `dropna` on `luid`, the boolean filter and the column drop are modelled, on typed records.
- Columns of the read-metadata response other than `fieldName`, `fieldCaption`, `dataType`, `defaultAggregation` and `logicalTableId` are not modelled. The model's response rows carry exactly these five, and every row carries `logicalTableId`. What line 156 and line 158 would do with other shapes:
  - Another column whose name the scoped rows do not use passes through unchanged.
  - A response column named `formula` comes out of the merge as `formula_x`, and the scoped rows' formula as `formula_y`. The model's `formula` is the scoped rows' formula.
  - A response column named `luid`, `datasource_name`, `fullyQualifiedName` or `name` is suffixed the same way on both sides. The drop at line 158 then raises KeyError, because only the `_x` and `_y` copies exist.
  - When no returned field carries `logicalTableId`, that column is missing and the drop at line 158 raises KeyError.
- A `publishedDatasources` element without `luid`: the query always asks for it, so every data source carries one. `dropna` therefore removes exactly the unmatched fields.
- The session (`Session`) and the worked sessions (`Scenarios`) run the corrected `Catalog.BuildCatalog` and `Metadata.MetadataReport`. On an input listed under Findings the program as written would instead end with a KeyError. The worked sessions use inputs on which the code as written does not raise (`Scenarios.SiteFieldsDoNotRaise`, `Scenarios.SalesMetadataReport`).
- Determinism and idempotence of the pipeline hold by construction: every operation is a function of its inputs.
- Catalog.SelectChosenFields: assumes distinct luids, which the server guarantees. Without them, a chosen luid would also collect the rows of another data source with the same luid.
- Catalog.ScopeInnerJoin: assumes distinct luids, for the same reason.
- Session.PassReportIff: assumes distinct luids, for the same reason.

## Findings

| source | as written | input that shows it | evidently intended | confidence | as-written member | corrected member |
|---|---|---|---|---|---|---|
| published_datasource_manager.py:66 | `fields_df['fullyQualifiedName']` on the frame of an empty field list raises KeyError | a site with no calculated field | an empty catalog, and every selection empty | high, not executed | Catalog.AsWrittenRaisesWithoutFields | Catalog.BuildCatalog |
| published_datasource_manager.py:68 | `drop(columns='datasource')` raises KeyError: `json_normalize` yields no bare `datasource` column when every field has one | one field `[Profit Ratio]` owned by `Sales` | the catalog row pairing it with `Sales` | high, not executed | Catalog.AsWrittenRaisesWhenEveryFieldOwned | Catalog.BuildCatalog |
| published_datasource_manager.py:76 | `left_on='datasource_name'` raises KeyError when no field has a data source | one field `[Scratch]` without a data source, and one published data source | an empty catalog | high, not executed | Catalog.AsWrittenRaisesWhenNoFieldOwned | Catalog.BuildCatalog |
| published_datasource_manager.py:76 | `right_on='name'` raises KeyError on `pd.DataFrame([])` when no data source is published | no published data source | a listing of 0 data sources in which every ID is refused | high, not executed | Catalog.AsWrittenRaisesWithoutSources | Catalog.BuildCatalog |
| published_datasource_manager.py:156 | `left_on='fieldName'` raises KeyError on `pd.DataFrame([])` when the service returns no field | an empty `data` array | an empty table | medium, not executed | Metadata.AsWrittenRaisesOnEmptyResponse | Metadata.MetadataReport |
