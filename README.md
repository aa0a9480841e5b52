# ECCN sheet reconciliation, modelled in Dafny

Two scripts keep a Google Sheets worksheet in step with a Zoho Analytics
export of McMaster ECCN order lines. Both use `Subform_id` as the row key.

- `eccn_MCM.py` shapes the export and builds the composite `grkey`. It
  then reconciles the export (the source) into the worksheet (the
  destination):
  - it normalises keys and parses `dd/mm/yyyy` dates;
  - it left-merges, and fills the worksheet's null cells from the export;
  - it appends the export rows whose key the worksheet lacks;
  - it sorts by date (newest first), then by invoice;
  - it renders every cell as text and selects the sheet's 22 columns;
  - if the frame is not empty, it clears the worksheet and writes the
    header and all the rows.
- `eccn_MCM_polo.py` finds the export rows whose stripped key the worksheet
  lacks. It appends them and keeps only the rows whose date parses as
  `%Y-%m-%d %H:%M:%S`. It sorts those by date (oldest first), selects 17
  columns, writes the date back as text, and replaces the worksheet.

The model has these modules:

- `Frames`: DataFrames as a `Table` of column labels and rows, where a row
  maps labels to cells. A cell is `Null`, text or a timestamp. The module
  also has the pandas operations the scripts use: `reindex`, `df[cols]`,
  `concat`, column assignment and the text grid written to a sheet.
- `Text`: Python's `str.split`, `str.strip` and string ordering.
- `Dates`: timestamps, CPython's `%d/%m/%Y` parsing, pandas 2.x's exact
  `%Y-%m-%d %H:%M:%S` matching and pandas' nanosecond range.
- `Sequences`: boolean-mask filtering, and a stable sort with its
  permutation, order and stability lemmas.
- `Sheets`: the worksheet, as a class whose `grid` is changed by `Clear`
  and `AppendRows`.
- `Mcm` and `Polo`: the two scripts' pipelines. `McmProperties` and
  `PoloProperties` hold what is proved about them.

Each pipeline is written twice. It is a function over values (`Reconcile`,
`PoloReconcile`) and a step-by-step method that changes the sheet
(`SortAndAppend`). Each method is proved to return what the function
computes. On a `KeyError` both methods leave the sheet as it was. In
`eccn_MCM.py` an empty result frame also leaves the sheet as it was;
otherwise the sheet ends up holding exactly the function's grid. In
`eccn_MCM_polo.py` every successful run replaces the sheet with the grid,
even an empty one.

Some behaviours of the code worth knowing, all modelled as written:

- `fillna` keeps a non-null worksheet cell. Only a null worksheet cell
  takes the export's value.
- `grkey` is null when the invoice or the SKU is null; a null part does not
  become the empty string.
- A worksheet key that appears several times, or a key that matches several
  export rows, gives one merge row per match, as pandas' `merge` does.
- A missing key column raises `KeyError` when the code first indexes it. In
  `eccn_MCM_polo.py`, `identify_missing_rows` instead returns an empty frame
  when `Subform_id` is not shared.
- `clear_and_append_to_gsheets` clears and writes even when the frame is
  empty. Only `append_to_gsheets` in `eccn_MCM.py` skips an empty frame.

## Model

| member | source | states |
|---|---|---|
| Mcm.GrKey | eccn_MCM.py:56 | `grkey` is text exactly when invoice and SKU are both text. It then ends with the SKU, and what comes before is the invoice's text up to its first `\|`, which contains no `\|` |
| Text.FirstField | eccn_MCM.py:56 | the first field of `split('\|')` is a prefix of the text with no separator. It ends at the first separator, or is the whole text when there is none |
| Text.JoinSplit | eccn_MCM.py:56 | joining the fields of `split(sep)` with `sep` gives back the text |
| Text.SplitJoin | eccn_MCM.py:56 | splitting fields joined by a separator they do not contain gives back the fields |
| Mcm.ShapeExport | eccn_MCM.py:55-63 | `KeyError` exactly when no exported row has `Raptor Invoice` (named first) or `Grainger SKU`. Otherwise: one row per record over `ordered_columns`, well formed, with `grkey` computed, `CRM Update Status` empty, every other listed cell copied, and no `COO` or `Remarks` column |
| Mcm.ExportSchema | eccn_MCM.py:60-62 | the export schema has `grkey` and `CRM Update Status`. The implicitly joined literal `'COO''Remarks'` leaves it without `COO` and without `Remarks` |
| Mcm.OrderedColumnsDistinct | eccn_MCM.py:60-62 | the export's column labels are distinct |
| Mcm.NewOrderDistinct | eccn_MCM.py:143-144 | the sheet's 22 column labels are distinct |
| Frames.Reindex | eccn_MCM.py:63 | exactly the requested columns in order, one row per input row: a present cell is kept, a missing one is null, an unlisted one is dropped |
| Frames.MapColumn | eccn_MCM.py:89-100 | assigning `df[col] = f(df[col])` changes exactly that column's cells, to `f` of the old ones, and keeps the table well formed |
| Dates.ParseDayMonthYear | eccn_MCM.py:97-100 | a successful `%d/%m/%Y` parse is a date pandas can hold, at midnight, and the text is one of that date's spellings (day as `d`, ` d` or `dd`, month as `m` or `mm`, four-digit year). The texts `now` and `today` are read as NaT (see "Left out") |
| Dates.ParseDayMonthYearExact | eccn_MCM.py:97-100 | a text parses to a date exactly when the date exists, is at midnight, fits pandas' range and the text is one of its spellings. Any other text, such as `31/02/2024`, gives NaT; so do `now` and `today`, which pandas reads as the current time |
| Dates.SpellingParses | eccn_MCM.py:97-100 | every spelling of a midnight date pandas can hold parses to that date |
| Dates.DigitsOfDecimal | eccn_MCM.py:97-100 | a digit string is the zero-padded spelling, at its own width, of the number it denotes |
| Dates.ParseDayMonthYearNormalises | eccn_MCM.py:97-100 | re-parsing the canonical text of a parsed date gives the same date |
| Dates.FormatThenParseDayMonthYear | eccn_MCM.py:137 | a representable midnight date written with `strftime('%d/%m/%Y')` parses back to itself |
| Dates.SplitDayMonthYear | eccn_MCM.py:137 | the written `dd/mm/yyyy` text splits on `/` into its three zero-padded fields |
| Dates.DecimalOfDigits | eccn_MCM.py:137 | a number written zero-padded to `w` digits reads back as the same number |
| Mcm.Matches | eccn_MCM.py:107 | a key matches exactly the export rows that have it. With `Sequences.FilterSelected`, they come in export order, every occurrence kept |
| Mcm.JoinOne | eccn_MCM.py:107 | a worksheet row with no matching export row yields one merge row, paired with nothing. Otherwise it yields one merge row per match, the `k`th paired with the `k`th match |
| Mcm.LeftJoin | eccn_MCM.py:107 | the left merge has at least one row per worksheet row. Each pairs a worksheet row with nothing or with an export row of the same key |
| McmProperties.LeftJoinAppend | eccn_MCM.py:107 | the merge is built row by row, in worksheet order. Merging two parts of a worksheet gives each part's merge rows in turn, and one row gives its `JoinOne` block |
| McmProperties.LeftJoinCovers | eccn_MCM.py:107 | every worksheet row appears in the left merge |
| McmProperties.LeftJoinAt | eccn_MCM.py:107 | worksheet row `k`'s merge rows start at a computed offset inside the merge |
| McmProperties.MatchesOfUniqueKeys | eccn_MCM.py:107 | with unique export keys, a key matches at most one export row, and matches one exactly when the export has it |
| McmProperties.JoinOneUnique | eccn_MCM.py:107 | with unique export keys, a worksheet row yields exactly one merge row: with its export row when the key is known, with nothing otherwise |
| McmProperties.UniqueKeysJoin | eccn_MCM.py:107 | with unique export keys, the merge is one row per worksheet row, in order, each paired as `JoinOneUnique` says |
| Mcm.FillFromSource | eccn_MCM.py:110-117 | the column-by-column, row-by-row loop leaves every merge row as `FillColumns` describes: each refreshable null worksheet cell takes the export's value |
| Mcm.Merge | eccn_MCM.py:107-120 | the merged frame has the worksheet's columns and then the export-only ones, without `_zoho` labels, and at least one row per worksheet row |
| McmProperties.MergedCell | eccn_MCM.py:107-120 | a merged cell: a non-null worksheet cell is kept, a null refreshable one takes the export's cell, a non-refreshable one is kept, and an export-only column takes the export's cell |
| McmProperties.UniqueMergeRow | eccn_MCM.py:107-120 | with unique export keys, worksheet row `i` is kept as it was when the export lacks its key. Otherwise each refreshable cell is `fillna` of the worksheet's cell by that export row's |
| McmProperties.MergedKey | eccn_MCM.py:107-120 | a merge row's key is its worksheet row's key |
| McmProperties.NewRowsExact | eccn_MCM.py:123 | an export row is appended exactly when its key is not among the worksheet's keys. There are none when the worksheet already has every key. The `q`th appended row is the `q`th such export row in export order, with every occurrence kept |
| Frames.Concat | eccn_MCM.py:130 | `concat(ignore_index=True)`: the first frame's columns, then the second's new ones. Its rows, then the second's. Each cell is as in its own frame, and is null where that frame lacks the column |
| McmProperties.CombinedLength | eccn_MCM.py:107-130 | the combined frame has one row per merge row plus one per appended row |
| McmProperties.CombinedColumns | eccn_MCM.py:107-130 | a label is a combined column exactly when the export has it or the worksheet has it without the `_zoho` ending |
| McmProperties.CombinedKeys | eccn_MCM.py:107-130 | no key is lost or invented: the combined rows carry exactly the worksheet's keys and the export's keys |
| McmProperties.KeysFromParts | eccn_MCM.py:107-130 | rows made of merge rows covering the worksheet plus the export rows with unknown keys carry exactly the keys of both |
| Sequences.Sort | eccn_MCM.py:133-134 | sorting permutes the rows |
| Sequences.SortSorted | eccn_MCM.py:133-134 | under a total preorder, the sorted rows are in order |
| Sequences.SortStable | eccn_MCM.py:133-134 | rows that compare equal keep their relative order |
| Dates.BeforeIsStrictTotalOrder | eccn_MCM.py:133-134 | timestamp order is irreflexive, total and transitive |
| Text.LexLeTotal | eccn_MCM.py:133-134 | any two invoice texts compare |
| Text.LexLeTransitive | eccn_MCM.py:133-134 | invoice order is transitive |
| Text.LexLeAntisymmetric | eccn_MCM.py:133-134 | invoice texts that compare both ways are equal |
| McmProperties.DateFirstOrder | eccn_MCM.py:133-134 | dates descending with NaT last is total, antisymmetric and transitive |
| McmProperties.InvoiceFirstOrder | eccn_MCM.py:133-134 | invoices ascending with nulls last is total and transitive |
| McmProperties.OrderedBeforeIsTotalPreorder | eccn_MCM.py:133-134 | the two-key sort order compares every two rows, transitively |
| McmProperties.ReconciledIsOrdered | eccn_MCM.py:133-134 | the sorted rows are a permutation of the combined rows, in (date descending, invoice ascending) order, and ties keep their order |
| McmProperties.ReconciledKeys | eccn_MCM.py:87-134 | the rows handed on carry exactly the keys of both normalised frames |
| McmProperties.RenderedRows | eccn_MCM.py:137-140 | rendering keeps every column, leaves only text, and each cell is `RenderCell` of the sorted row's cell |
| McmProperties.RenderedDateReadsBack | eccn_MCM.py:137-140 | a parsed date cell, rendered and parsed again, is the same cell. NaT is written as `''` and read back as NaT |
| McmProperties.NormaliseParsesDates | eccn_MCM.py:97-100 | after normalising, every date cell of a text frame is NaT or a representable midnight date, for frames with no `now` or `today` date cell |
| McmProperties.MergeRowDate | eccn_MCM.py:110-115 | filling keeps the date cells of merge rows parsed |
| McmProperties.CombinedDatesParsed | eccn_MCM.py:107-130 | the combined rows keep parsed date cells |
| McmProperties.ReconciledDatesParsed | eccn_MCM.py:87-133 | the sorted rows carry only parsed date cells |
| McmProperties.WrittenDatesReadBack | eccn_MCM.py:97-137 | each date written back is read by the next run as the date its row was sorted on, for frames with no `now` or `today` date cell |
| Frames.Project | eccn_MCM.py:145 | `df[cols]` succeeds exactly when every label is present, and raises `KeyError` naming a missing one. Otherwise it reindexes to `cols` |
| Frames.ProjectCells | eccn_MCM.py:145 | a selection keeps each selected cell, keeps a text-only frame text-only, and is well formed over distinct labels |
| McmProperties.NewOrderUnsuffixed | eccn_MCM.py:120-145 | no output column ends in `_zoho`, so none is dropped by the suffix filter |
| McmProperties.NewOrderInCombined | eccn_MCM.py:107-145 | an output column is among the combined columns exactly when one of the two frames has it |
| McmProperties.ReconcileSucceedsIff | eccn_MCM.py:87-145 | the write is reached exactly when both frames have `Subform_id` and the date column and every output column is on one side. Otherwise `KeyError` |
| McmProperties.ExportNeedsSheetCooAndRemarks | eccn_MCM.py:60-145 | reconciling the shaped export succeeds only when the worksheet has `COO` and `Remarks` |
| McmProperties.ReconcileShape | eccn_MCM.py:133-145 | the frame written has the 22 sheet columns, is well formed and all text, has one row per sorted row, and each cell is that row's rendered cell |
| Frames.ToGrid | eccn_MCM.py:165-168 | the grid is the header row followed by one text row per record, in order, each cell stringified with null as `''` |
| Frames.ReadTable | eccn_MCM.py:80-83 | a sheet read back is well formed and all text, with the header as columns and one row per data row |
| Frames.ReadBackWritten | eccn_MCM.py:80-83 | what is written reads back as the same table with each cell as its text |
| Frames.AsWrittenText | eccn_MCM.py:165-168 | a text-only table is stored unchanged |
| McmProperties.ReconcileReadsBack | eccn_MCM.py:165-172 | the reconciled frame, once written, reads back on the next run as the same frame |
| Mcm.AppendToSheet | eccn_MCM.py:155-172 | an empty frame leaves the sheet as it was. Otherwise the sheet is cleared and then holds exactly the header and rows as text |
| Mcm.SortAndAppend | eccn_MCM.py:87-148 | the step-by-step pipeline fails with exactly the `KeyError` of `Reconcile`, leaving the sheet untouched. Otherwise the sheet holds `Reconcile`'s grid, or is unchanged when that frame is empty |
| Sheets.Sheet.Clear | eccn_MCM.py:171 | clearing leaves the worksheet empty |
| Sheets.Sheet.AppendRows | eccn_MCM.py:172 | appended rows follow the rows already there, unchanged |
| Polo.CommonColumns | eccn_MCM_polo.py:98 | a label is common exactly when both frames have it, each listed once |
| Polo.MissingRow | eccn_MCM_polo.py:101-118 | a missing row has exactly the common columns, its export cells, and the stripped key |
| Polo.MissingRows | eccn_MCM_polo.py:94-121 | an empty frame when `Subform_id` is not shared. Otherwise a well-formed frame over the common columns |
| PoloProperties.MissingRowIsNew | eccn_MCM_polo.py:104-121 | each missing row is an export row whose stripped key the worksheet lacks, shaped to the common columns |
| PoloProperties.MissingRowsCover | eccn_MCM_polo.py:104-121 | every export row whose stripped key the worksheet lacks is among the missing rows |
| PoloProperties.MissingRowsInOrder | eccn_MCM_polo.py:104-121 | the `q`th missing row is built from the `q`th export row, in export order, whose stripped key the worksheet lacks. Every such export row yields one |
| Text.StripEnds | eccn_MCM_polo.py:108-109 | stripped text neither starts nor ends with whitespace |
| Text.StripPadded | eccn_MCM_polo.py:108-109 | stripping whitespace padding around text with non-space ends gives that text |
| Text.StripIdempotent | eccn_MCM_polo.py:108-109 | stripping twice is stripping once |
| PoloProperties.MissingRowKey | eccn_MCM_polo.py:108-118 | a missing row's stripped key is its export row's |
| PoloProperties.NoneMissing | eccn_MCM_polo.py:111-121 | when the worksheet knows every export row's stripped key, there are no missing rows |
| PoloProperties.MissingRowsIdempotent | eccn_MCM_polo.py:94-142 | once the missing rows are appended, no export row is missing any more |
| PoloProperties.AllKnown | eccn_MCM_polo.py:94-142 | after the append, every export row's stripped key is known to the worksheet |
| PoloProperties.KnownStaysKnown | eccn_MCM_polo.py:142 | a worksheet key stays known when rows are appended |
| PoloProperties.AppendedKnown | eccn_MCM_polo.py:142 | an export row's key is known once its missing row is appended |
| Frames.ConcatColumns | eccn_MCM_polo.py:142 | a label is a column of the concatenation exactly when one side has it |
| Frames.ConcatCell | eccn_MCM_polo.py:142 | each cell of the concatenation is as in the row it came from, and null where that side lacks the column |
| Dates.ParseIsoDateTime | eccn_MCM_polo.py:144 | a successful `%Y-%m-%d %H:%M:%S` parse is a timestamp pandas can hold, and the text is its zero-padded spelling |
| Dates.ParseIsoDateTimeExact | eccn_MCM_polo.py:144 | a text parses to a timestamp exactly when pandas can hold it and the text is its `YYYY-MM-DD HH:MM:SS` spelling. Any other text gives NaT, `now` and `today` included, which pandas reads as the current time |
| Dates.IsoUnmatched | eccn_MCM_polo.py:144 | a text the format rejects spells no timestamp pandas can hold |
| Polo.ParseDate | eccn_MCM_polo.py:144 | a text cell other than `now` or `today` becomes a timestamp only when it is that timestamp's spelling, and NaT only when it spells no timestamp pandas can hold. Other cells stay as they are |
| PoloProperties.DatedIff | eccn_MCM_polo.py:144-146 | a row survives `dropna` exactly when its source cell was a timestamp or text that parses |
| Sequences.Filter | eccn_MCM_polo.py:146 | a mask keeps only rows that satisfy it, and every such row |
| Sequences.FilterSelected | eccn_MCM_polo.py:146 | a mask keeps every occurrence of the rows that satisfy it, and nothing else, in their original order: the `k`th kept row is the row at the `k`th selected position |
| Sequences.FilterAppend | eccn_MCM_polo.py:146 | masking two parts of a frame gives each part's kept rows in turn |
| PoloProperties.DateBeforeIsTotalPreorder | eccn_MCM_polo.py:148 | dates ascending with NaT last compares every two rows, transitively |
| PoloProperties.OrderedIsSortedDatedRows | eccn_MCM_polo.py:142-148 | the rows kept are sorted by date, are a permutation of the dated rows, and a parsed row is kept exactly when it is dated |
| PoloProperties.OrderedDatesRepresentable | eccn_MCM_polo.py:144-148 | every kept row of frames read from text has a representable parsed date |
| Polo.NewOrderDistinct | eccn_MCM_polo.py:150-153 | the 17 output labels are distinct |
| PoloProperties.PoloSucceedsIff | eccn_MCM_polo.py:141-154 | the write is reached exactly when every output column is on one side. Otherwise `KeyError` |
| Polo.PoloReconcile | eccn_MCM_polo.py:141-156 | a `KeyError` names the date column or an output column |
| Polo.DateText | eccn_MCM_polo.py:156 | a timestamp is written as `YYYY-MM-DD` when the column's dates are all midnight, and as `YYYY-MM-DD HH:MM:SS` otherwise |
| Polo.RenderDates | eccn_MCM_polo.py:156 | only the date column changes, to its text, and the frame stays well formed |
| PoloProperties.PoloShape | eccn_MCM_polo.py:141-156 | the frame written has the 17 columns, is well formed, and has one row per kept row in date order. Each cell is as in that row, and the date is written as its text |
| Dates.FormatThenParseIsoDateTime | eccn_MCM_polo.py:156 | a timestamp written as `YYYY-MM-DD HH:MM:SS` parses back to itself |
| Dates.IsoDateDoesNotParse | eccn_MCM_polo.py:156 | a `YYYY-MM-DD` text has ten characters and does not parse as `%Y-%m-%d %H:%M:%S` |
| PoloProperties.WrittenDatesReadBack | eccn_MCM_polo.py:144-156 | when some kept date has a time of day, each written date is read by the next run as the date its row was sorted on |
| PoloProperties.DatesOnlyAreDroppedNextRun | eccn_MCM_polo.py:144-156 | with pandas 2.x parsing, when every kept date is at midnight, each written date reads back as NaT on the next run, so the row is then dropped. pandas 1.x would read the bare date as midnight instead |
| PoloProperties.PoloReadsBack | eccn_MCM_polo.py:133-137 | the written frame reads back on the next run as the same frame with each cell as text |
| Polo.ClearAndAppend | eccn_MCM_polo.py:133-137 | the worksheet is cleared and then holds exactly the header and rows |
| Polo.SortAndAppend | eccn_MCM_polo.py:141-158 | the step-by-step pipeline returns `PoloReconcile`'s result. On success the sheet holds its grid; on `KeyError` the sheet is unchanged |

## Left out

- Fetching is not modelled: the Zoho token exchange, the HTTP export, XML parsing, gspread and OAuth. The frames they produce are inputs, and the worksheet is a `Sheet` object.
- `eccn_2_Grainger.py` and `run.py` are not part of this model.
- The `__main__` blocks, the debugging `print` calls and `exit()` are not modelled.
- `Polo.CommonColumns`: Python's set order for `common_columns` is not modelled. The labels are kept in the export's order, and only which labels appear is promised.
- `Dates.ParseIsoDateTime`: models the exact-format matching of pandas 2.x; the scripts do not pin a pandas version. Only the zero-padded 19-character form with one space is accepted. pandas 2.x also accepts unpadded fields and a run of whitespace (two spaces, a tab) between date and time, which its `strptime` fallback reads as `\s+`. pandas 1.x treats this ISO-like format as a hint only and also reads a bare `YYYY-MM-DD` as midnight, so `PoloProperties.DatesOnlyAreDroppedNextRun` does not hold there.
- `Dates.ParseDayMonthYear` accepts ASCII digits only. CPython's `\d` also matches other Unicode digits.
- `Dates.ParseDayMonthYear` / `Dates.ParseIsoDateTime`: pandas 2.x reads the exact texts `now` and `today` as the current time (not midnight) under any format. The model has no clock and reads them as NaT. `Polo.ParseDate`, `McmProperties.NormaliseParsesDates` and `McmProperties.WrittenDatesReadBack` therefore hold only for date cells holding other texts.
- `Frames.Value`: `None`, `NaN` and `NaT` are one `Null`. `astype(str)` of a null key gives `"None"`, but pandas would give `"nan"` for a NaN key.
- `Frames.Table`: duplicate column labels are not represented. Nor is pandas adding a second `_zoho` suffix when a label already ends in `_zoho`.
- Timestamps are kept to the second. Nanoseconds and time zones are not modelled; pandas' bounds are rounded inwards to whole seconds.
- `Polo.Ordered`: pandas' default single-key sort is quicksort, which is not stable. The model sorts with the stable insertion sort, and `PoloProperties.OrderedIsSortedDatedRows` promises only sortedness and permutation.
- `Polo.ClearAndAppend`: a NaN cell, from a column only one side had, makes gspread's JSON encoding fail. The model writes it as `''`.
- `McmProperties.UniqueMergeRow`: the row-by-row merge result is stated only for unique export keys. `McmProperties.MergedCell` covers every merge row.
- Clear and append are two remote calls. A failure between them leaves the worksheet empty; failures of the remote calls are not modelled.
