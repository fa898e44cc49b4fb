# Base Search: verified model

Base Search is a desktop program that imports customs tables into SQLite, searches them,
and answers analytics from SQLite or from a DuckDB projection of it. This project models
the parts of it where a mistake would be silent (a wrong total, a lost column, a stale
projection, a second server process) and proves what they promise, for all inputs and over
all runs. `dafny verify dfyconfig.toml` checks everything.

| part of the program | modules |
|---|---|
| shared text primitives | `Basics`, `Text` |
| projection freshness, fingerprint, file swap | `Fingerprint`, `SourceTracking`, `FileSwap` |
| SQL conditions, aggregates, grouping and order | `Sql`, `Ranking` |
| measures and their two encodings in the rollups | `Records`, `Measures`, `Modes`, `Prices` |
| rollup tables, answers from them and from the scan | `RollupTables`, `RollupOverview`, `HsLevels`, `Analytics`, `RollupRefinement` |
| streaming import | `CsvScanner`, `RowAssembler`, `ColumnMapping`, `RowMapping`, `Normalizers`, `RowSink`, `FileImport` |
| desktop launcher | `Launcher`, `LauncherRuns` |
| search-count thread | `CountWorker` |
| phase lines between processes | `PhaseWire` |

Code that changes state is modelled as classes and methods with the source's fields and
loops; each is proved against a function of the old state, and the lemmas are about those
functions. Races (launcher, count thread, builds against writers) are transition systems
whose steps are the same functions, with every interleaving allowed. SQL is modelled as
three-valued conditions, nullable columns and maps keyed by the GROUP BY columns.

## What the model takes for granted

- Hashing is injective: SHA-256 is represented by the byte stream it is fed, and a random
  generation is one that was never drawn before.
- Doubles are exact reals. Amounts, weights and factors are `real`, and the four weight
  factors are the constants of the source.
- No statement drops a column of `records`, so a table text once rebuilt keeps naming every
  known column; the trigger texts are constants of the program version.
- The reinstall of the three source triggers is one atomic step, a build's read of the
  source is one transaction, and single file operations are atomic but may each fail.
- Stopping a child process and probing whether it still runs succeed. Children may die at any moment, health checks may
  answer at any moment while a worker watches.
- Header detection returns one plan entry per storage column, a plan that reads only columns
  of its own headers, and a header inside the rows it was given. `normalize_cell`, the text and filter matchers, `inherited_measures` and the
  metrics of the price tab are arbitrary functions, applied alike on both sides.
- Database states are numbered and counts are a function of the number and the query.

## Where the code does less than one might expect

- The rollup selector reads a year with `parse::<i64>` and the filter with `parse_year`.
  `RollupRefinement.AnsweredIsTheScanExactly` shows the answers agree for all records exactly
  when the query is not rollup-eligible, or its year is blank or has exactly four digits:
  "999" or "02024" is answered for one year by the rollups and for all years by the scan.
- The launcher's generation is 64 bits wide and skips zero. A worker installs its child
  exactly when a whole number of wraps separates it from the slot
  (`LauncherRuns.InstallsExactlyWhenCurrent`), so the statements about a stopped launcher and
  about URLs hold short of the first wrap, and `LauncherRuns.StoppedSlotFillsAfterAWrap` shows
  the bound is needed. Closing the window does not change the generation, so a child a worker
  still holds at that moment survives it (`LauncherRuns.ClosingLeavesHeldChildren`).
- A row's cells beyond the table's width, the larger of the declared and the detected one,
  are dropped (`RowMapping.CellsBeyondWidthAreDropped`).
- The preview ignores cells above or left of the declared dimensions and the import keeps
  them. They agree on every row down to the end of the preview if and only if no cell lies
  above, and each shown row that has cells left of the dimensions also has one inside and keeps
  its first value when they are taken away (`RowAssembler.PreviewAgreesExactly`);
  `RowAssembler.LeftCellBreaksPrefix` and `RowAssembler.RowAboveBreaksPrefix` are two sheets
  where they differ.
- A swap that finds no projection at its destination removes the backup first, so after a
  restoring rename has failed the next build of that label deletes the only complete projection,
  and has none to fall back on when its own rename fails. A complete one is left at every moment
  exactly when each swap found one at the destination or could not remove the backup
  (`FileSwap.BuildRepeatedly`); without two failed operations in a row it is never at risk.
- A search count can be stale. A reply is fresh when it counts some version between its request
  and its answer. All replies to a script of changes, counts and cache clears are fresh, in every
  interleaving, if and only if between two counts of one query the database never changes
  without a clear (`CountWorker.FreshExactly`). An import breaks this: each file is committed on
  its own, the clear goes out when the whole import is done, and turning a page in between
  (src/app/requests.rs:48-61) sends the same query again and can get the old total.
- The counter of weights without a known unit tests for a blank or marked unit, the buckets
  for a unit without a factor. They agree exactly when every weighed row's unit is
  recognized, blank or marked (`Measures.UnknownWeightIsExcluded`).
- A last record without a line break is measured only when it has more than one field.

## Model

| member | source | states |
|---|---|---|
| RollupTables.SliceIsSelection | src/duckdb_olap.rs:1830-1869 | filtering the expanded view by scope and year key reads exactly the records a detail scan with that scope and year reads, in order and each once, the literal year 0 included |
| RollupTables.GroupIsSelection | src/duckdb_olap.rs:2112-2183 | the rows grouped under a (scope, year, label) are exactly the selected records with that label, carrying their own converted weights |
| RollupTables.RollupCellsAre | src/duckdb_olap.rs:2143-2176 | every aggregate over the view's columns equals the scan's aggregate over the records |
| RollupTables.CellsHold | src/duckdb_olap.rs:2143-2176 | what each aggregate column holds of the rows alone: distinct texts, plain sums, and for the paired columns the sums over the rows with a value and a positive weight |
| RollupTables.TableIsDetail | src/duckdb_olap.rs:1946-1987 | reading a monthly or section table for a scope and year finds exactly the scan's labels, each with the scan's aggregates and the nullable USD sum of its records |
| RollupTables.EverySectionIsBuilt | src/duckdb_olap.rs:2027-2047 | every section kind at every HS level a query can name was inserted, under the label expression the scan uses for it |
| RollupOverview.OverviewIsDetail | src/duckdb_olap.rs:1871-1944 | the overview row of a scope and year holds the scan's counts and the two modes of the same records; no row means the scan finds nothing, and never for the all-years key |
| RollupOverview.RollupsValidate | src/duckdb_olap.rs:2189-2212 | the validation that ends a build succeeds for every record set |
| RollupOverview.AllYearsOnce | src/duckdb_olap.rs:1932-1944 | inserted rows never repeat a grouped one, each scope has its all-years row, and each record in scope is in the all-years slice exactly once |
| HsLevels.CoarserGroupsAddUp | src/duckdb_olap.rs:2040-2047 | in every scope and year a coarser product group holds, in all fifteen additive columns, the sum of the finer groups that share its prefix |
| Analytics.TopLabelsAreTheBest | src/duckdb_olap.rs:1466-1480 | the listed groups are as many as the clamped limit allows, in rank order, and each outranks every group that is not listed: more money, then more weight, then more rows |
| Analytics.MonthSeriesIsNewest | src/duckdb_olap.rs:1371-1432 | the month series ascends and every month left out is older than every month shown |
| Ranking.OrderingIsForced | src/duckdb_olap.rs:2705-2706 | rows under a total order have one ordering, so both engines cut their top lists at the same place |
| Analytics.GroupsAgree | src/duckdb_olap.rs:1435-1564 | the groups read from a table are the scan's groups, and wherever the query shows USD totals the nullable column is the scan's plain sum |
| RollupRefinement.MonthsAgree | src/duckdb_olap.rs:1361-1433 | the month rows answered from the rollups are the scan's month rows |
| RollupRefinement.SectionsAgree | src/duckdb_olap.rs:1435-1564 | a section answered from the rollups, ranked, limited and shared, is the scan's section, for every kind, HS level and limit |
| RollupRefinement.AnswersAgree | src/duckdb_olap.rs:1175-1303 | overview, months, every tab's sections and prices agree whenever the filter selects a scope and year key |
| RollupRefinement.OverviewTotalsAre | src/duckdb_olap.rs:1352-1358 | the overview's kilograms and USD total are the plain sums its rollup row would hold, and the USD fields appear exactly in 'single_usd' mode |
| RollupRefinement.OverviewHolds | src/duckdb_olap.rs:2492-2545 | the overview counts each column's distinct texts; in one USD cohort it shows the money and the price per kilogram of the rows that have both |
| RollupRefinement.MonthsHold | src/duckdb_olap.rs:1361-1433 | every month row is its month's records: counts, weights, money, and a price that stands exactly when their paired kilograms are positive and times them is the paired value |
| RollupRefinement.SectionsHold | src/duckdb_olap.rs:1435-1564 | the same of every row of a section, with companies, gross weight, quantity and the inherited measures |
| RollupRefinement.SectionsMatchTheOverview | src/duckdb_olap.rs:2801-2850 | every section has as many groups as the overview counts in its column |
| RollupRefinement.CutLabels | src/duckdb_olap.rs:2801-2850 | product groups are the first 80 characters of descriptions, product codes below ten digits the first two to eight of codes |
| RollupRefinement.SharesAddUp | src/duckdb_olap.rs:1494-1508 | the shares of all groups are one hundred percent together when every record is labelled and the money total is positive |
| RollupRefinement.WeightSharesAddUp | src/duckdb_olap.rs:1494-1508 | without positive money the shares are of the kilograms and add up to one hundred |
| RollupRefinement.RowSharesAddUp | src/duckdb_olap.rs:1494-1508 | without positive money or weight they are of the rows and add up to one hundred |
| RollupRefinement.TabsShowTheirKinds | src/duckdb_olap.rs:1195-1303 | each section is shown on its tab, once, and on no other |
| RollupRefinement.SelectedYear | src/duckdb_olap.rs:1116-1144 | what the filter's year parser reads of a year the selector accepts |
| RollupRefinement.PlainMeansNoCondition | src/duckdb_olap.rs:3136-3212 | the filter is only the scope and the year, whatever the matchers, if and only if every text of the query is blank |
| RollupRefinement.EligibleExactly | src/duckdb_olap.rs:1116-1144 | the rollups are asked exactly for such queries without an expression whose year is blank or a positive number |
| RollupRefinement.RollupsAnswerExactly | src/duckdb_olap.rs:1151-1173 | and answer exactly when all money states USD and every net weight converts to kilograms |
| RollupRefinement.FilterIsSelection | src/duckdb_olap.rs:3136-3212 | for a rollup-eligible query whose year both parsers read alike, the filter selects the selector's scope and year key |
| RollupRefinement.RollupsRefineTheScan | src/duckdb_olap.rs:920-936 | the answer from the rollups equals the answer from the detail scan for every record set, tab, HS level and limit |
| RollupRefinement.YearlessRecordTells | src/duckdb_olap.rs:3207-3211 | any other accepted year is answered differently for a single record without a year |
| RollupRefinement.AnsweredIsTheScanExactly | src/duckdb_olap.rs:1147-1173 | analytics answer as the scan does, for all records, if and only if the query is not eligible or its year is blank or has exactly four digits |
| Measures.CurrencyBucketsConserve | src/duckdb_olap.rs:2354-2380 | currency buckets add up to all valued rows and to the plain sum of all values |
| Measures.UnknownCurrencyIsExcluded | src/duckdb_olap.rs:2437-2471 | the rows of the unknown currency buckets are the ones the exclusion counter counts |
| Measures.UnknownWeightIsExcluded | src/duckdb_olap.rs:2312-2348 | the unknown weight buckets hold at least the counted rows, and exactly those if and only if every weighed row's unit is recognized, blank or marked unknown |
| Measures.ValuedRowsPartition | src/duckdb_olap.rs:2385-2459 | valued rows are the paired ones, those with a missing or non-positive weight, and those with a positive weight nobody can convert |
| Measures.RatioCountersArePart | src/duckdb_olap.rs:2443-2468 | each ratio counter is the part of its value or weight counter whose rows also carry the other measure |
| Measures.BucketsConvertByFactor | src/duckdb_olap.rs:2291-2299 | a recognized bucket's kilograms are its source total times the factor; an unknown bucket has none |
| Records.UnitsAreConsistent | src/duckdb_olap.rs:2301-2309 | the four recognized units stand in their physical proportions to each other |
| Measures.BucketsAddUpToKg | src/db_types.rs:438-450 | the kilograms of all buckets are the plain sum of the converted weights |
| Measures.MergeIsGroupingByCurrency | src/duckdb_olap.rs:2385-2424 | merging the (currency, unit) groups through the map gives each currency its units, rows, values and weights as grouping by currency directly would |
| Measures.MergePairs | src/duckdb_olap.rs:2402-2435 | the merging loop returns exactly the per-currency totals, and a ratio stands exactly when there is weight and times the weight is the value |
| Modes.UsdEncodingsAgree | src/duckdb_olap.rs:1885-1921 | the mode is 'single_usd' if and only if the measures have a USD total, and the nullable column holds that total |
| Modes.UsdColumnOfPart | src/duckdb_olap.rs:1953-1969 | in a USD cohort the nullable column of any part is the part's plain sum |
| Modes.WeightEncodingsAgree | src/duckdb_olap.rs:1922-1928 | the mode is 'unavailable' if and only if some net-weight bucket is unknown |
| Modes.CompatibleMeansCohort | src/db_types.rs:492-497 | the compatible USD total is present exactly when some row is valued and every valued row states USD, and is then the sum of all values |
| Modes.UsdPerNetKgIs | src/db_types.rs:499-504 | in a USD cohort the compatible value per kilogram is that of all paired rows |
| Prices.PricedOrExcluded | src/duckdb_olap.rs:2892-2980 | the two WHERE clauses are each other's complement on valued rows under three-valued logic |
| Prices.CohortsPartitionValuedRows | src/duckdb_olap.rs:2887-2981 | cohort counts plus the excluded rows are all valued rows |
| Prices.CohortsStayBounded | src/duckdb_olap.rs:2909-2920 | each cohort has a weighted average, both averages lie between its lowest and highest price, and those are prices of its rows |
| Fingerprint.RowsInverse | src/duckdb_olap.rs:652-700 | row-marked, index- and type-tagged table rows are read back uniquely |
| Fingerprint.DecodeInvertsStream | src/duckdb_olap.rs:586-624 | the whole hashed stream has a left inverse |
| Fingerprint.FingerprintIsInjective | src/duckdb_olap.rs:529-634 | equal fingerprints mean equal schema state, generation and dirty mark |
| Fingerprint.Hasher.HashPart | src/duckdb_olap.rs:645-650 | feeds exactly the length-prefixed name and value |
| Fingerprint.Hasher.HashValue | src/duckdb_olap.rs:671-697 | feeds the tag and payload of one SQLite value |
| Fingerprint.Hasher.HashCells | src/duckdb_olap.rs:671-697 | feeds each cell of a row behind its index |
| Fingerprint.Hasher.HashQueryRows | src/duckdb_olap.rs:652-700 | feeds the table's name, then a mark and the cells of each row |
| SourceTracking.TrackingTable.InstallSourceTracking | src/duckdb_olap.rs:469-505 | a missing or foreign row becomes a fresh dirty one, a compatible one stays exactly as it is, the triggers are in place |
| SourceTracking.TrackingTable.OnRecordsChanged | src/duckdb_olap.rs:488-502 | the first change after a clean generation draws a new one and marks it dirty |
| SourceTracking.TrackingTable.PrepareSourceGeneration | src/duckdb_olap.rs:507-527 | a dirty source gets a new generation, a clean one keeps its own, an incompatible row is refused |
| SourceTracking.StepKeepsInv | src/duckdb_olap.rs:286-418 | every step keeps every projection of this version, installed or temporary, tied in that way to records and a schema state it was built from |
| SourceTracking.StepKeepsBuiltFrom | src/duckdb_olap.rs:469-527 | every step, table rebuilds included, keeps what a projection was built from, and that a clean generation equal to its own still names those records unless the records table has become known in between |
| SourceTracking.BuildIsCurrent | src/duckdb_olap.rs:235-284 | a build is current the moment its transaction commits |
| SourceTracking.OnlyCurrentPassesTheCheck | src/duckdb_olap.rs:254-272 | the check before the swap keeps a temporary projection exactly when it is current |
| SourceTracking.OnlyCurrentIsInstalled | src/duckdb_olap.rs:254-284 | what is installed right after the check is current; otherwise, or when the swap fails, the installed projection stays unless restoring it fails too |
| SourceTracking.FirstBuildIsInstalled | src/duckdb_olap.rs:235-284 | from a fresh database, tracking and one build lead to an installed current projection of it |
| SourceTracking.ChangesAreNoticed | src/duckdb_olap.rs:452-467 | a current projection stops being current at the next record write or table rebuild, and across a schema edit if and only if the edit changes the hashed state |
| SourceTracking.CurrentEndsExactly | src/duckdb_olap.rs:452-527 | a current projection stays current across a step if and only if it is no write, rebuild, foreign tracking row or edit of the hashed state |
| SourceTracking.CurrentStays | src/duckdb_olap.rs:469-527 | and so over whole runs of reinstalls, builds, checks, failures and swaps |
| SourceTracking.CurrentIsExact | src/duckdb_olap.rs:452-467 | a projection that is current is exactly the projection of the source as it is |
| SourceTracking.NothingIsMissed | src/duckdb_olap.rs:485-502 | in a run without a rebuild of the records table the triggers stay in place |
| SourceTracking.CurrentIsNeverWrong | src/duckdb_olap.rs:452-634 | in every run, in any interleaving of writes, edits, table rebuilds, reinstalls, builds, failures and installs, "current" is never wrong, for the installed projection and for temporary ones |
| SourceTracking.RebuildIsFinal | src/storage/migrations.rs:263-363 | a projection that is current before the guarded rebuild of the records table never is again, whatever run follows |
| FileSwap.ReplaceFilePreservingBackup | src/duckdb_olap.rs:176-226 | whatever operations fail, after every single one the complete old projection is in place or in the backup, or the new one is in place; success installs it and failure restores or keeps the old one; some projection is left at every moment if and only if one was at the destination or the stale backup could not be removed |
| FileSwap.BuildTemporary | src/duckdb_olap.rs:286-299 | building touches nothing but the temporary file |
| FileSwap.BuildProjectionReplacing | src/duckdb_olap.rs:235-284 | a failed or overtaken build never reaches the live projection, every intermediate state is recoverable, and the last projection is at risk exactly when a complete and current build finds none at the destination |
| FileSwap.BuildRepeatedly | src/duckdb_olap.rs:235-284 | over any sequence of builds, each of whose swaps begins exactly when its new file is complete and current, a complete projection is left at every moment if and only if every swap was harmless, and always when no two operations in a row fail |
| FileSwap.SwapKeeps | src/duckdb_olap.rs:189-226 | the directories one swap goes through all hold a projection if and only if the destination held one, or the backup's removal failed |
| FileSwap.TwoFailedSwapsLoseIt | src/duckdb_olap.rs:189-226 | when the rename and the restoring rename of one swap fail and then the rename of the next, no projection is left |
| CsvScanner.DelimitedRecordWidths | src/import.rs:1041-1063 | the loop returns what the recursive scan of the bytes defines |
| CsvScanner.ScannerMeasuresTables | src/import.rs:1041-1063 | on any table rendered by the quoting rules of section 2 of RFC 4180, with either line break, the scan finds each record's field count up to the limit |
| RowAssembler.Assembler.Push | src/import.rs:1516-1534 | finishes the previous row when the sheet row changes and writes the value at the shifted column, filling the gap |
| RowAssembler.Assembler.Take | src/import.rs:1536-1540 | returns the last row once |
| RowAssembler.Assemble | src/import.rs:1446-1458 | an ordered stream yields exactly one row per distinct sheet row |
| RowAssembler.RowNumberMembers | src/import.rs:1499-1500 | the rows are the sheet rows that have cells |
| RowAssembler.RowNumbersAscend | src/import.rs:1499-1500 | and they come in ascending order |
| RowAssembler.RowFromHolds | src/import.rs:1524-1533 | a row ends at its rightmost cell and holds at each column the last value written there or a blank |
| RowAssembler.PreviewGrid | src/import.rs:536-562 | the preview's loop fills each grid row from the cells of its window at or right of the origin |
| RowAssembler.RowAgreesExactly | src/import.rs:552-556 | a previewed row is the imported row if and only if it has no cells, or it has one inside the dimensions and the last value written to its first place comes out the same without the cells left of them |
| RowAssembler.PreviewAgreesExactly | src/import.rs:536-562 | every sheet row down to the end of the window is previewed as imported if and only if no cell lies above the dimensions and each shown row meets that condition |
| RowAssembler.PreviewIsPrefix | src/import.rs:536-562 | under the condition of `PreviewAgreesExactly`, the grid without its empty rows is a prefix of the assembled rows |
| RowAssembler.InsideIsHarmless | src/import.rs:536-562 | a sheet whose cells all lie within the declared first row and column meets it |
| RowAssembler.LeftCellBreaksPrefix | src/import.rs:552-554 | a cell left of the dimensions makes the two disagree |
| RowAssembler.RowAboveBreaksPrefix | src/import.rs:545-547 | so does a row above them |
| ColumnMapping.RemovingReads | src/import.rs:322-341 | removing a source column from a mapping entry removes it and nothing else |
| ColumnMapping.RemovingKeepsTheRest | src/import.rs:322-341 | a join keeps its other parts in order and its separator, and becomes a plain cell when one is left |
| ColumnMapping.TargetsAreNamed | src/schema.rs:282-314 | each semantic goes to the storage column of its name |
| ColumnMapping.ApplySemanticOverrides | src/import.rs:389-426 | succeeds if and only if every column is inside the table and no two map to one storage column, and returns the edited mapping |
| ColumnMapping.OverrideLands | src/import.rs:403-423 | an overridden column is read by its storage column alone, which takes it whole, or by none |
| ColumnMapping.NamedOverrideLands | src/import.rs:409-423 | a column overridden with a semantic is taken whole by the storage column of that name, in the mapping an import uses |
| ColumnMapping.OthersStay | src/import.rs:403-423 | a column without an override keeps every reader that is not an override's target |
| ColumnMapping.ApplyFixedValues | src/import.rs:377-387 | succeeds if and only if there are at most two values, for currency or weight unit, not blank and not too long; then the contract column holds the currency, the unit column the weight unit, and every other column is as before |
| ColumnMapping.FixedIsPinned | src/import.rs:368-387 | the same of the values of any map |
| ColumnMapping.FinalIsPinned | src/import.rs:1611-1615 | and of the mapping an import uses |
| ColumnMapping.UnmappedMembers | src/import.rs:150-173 | the extra columns are exactly the source columns no storage column takes whole, in order |
| ColumnMapping.NoColumnIsLost | src/import.rs:1611-1634 | after overrides and fixed values each source column feeds a storage column or is an extra, never both, and an overridden one is exactly where its override puts it |
| ColumnMapping.FinalReadsBelow | src/import.rs:389-426 | overrides and fixed values never make the mapping read a column outside the table |
| RowMapping.EveryCellIsKept | src/import.rs:1682-1765 | every source cell of the table is in the record: in each storage column that takes it, dates normalized, or else among the extras when it is not blank; a non-blank one gives its row a record |
| RowMapping.NoRecordWhenBlank | src/import.rs:1707-1709 | a row has no record if and only if every storage column and every extra column is left blank |
| RowMapping.BlankRowIsSkipped | src/import.rs:1707-1709 | so a row whose cells all clean to nothing has none, unless a fixed value stands in it |
| RowMapping.RecordHolds | src/import.rs:1686-1728 | what a record holds for every source: fixed values, cells, joins, normalized dates, and exactly the non-blank extras in column order |
| RowMapping.PartsConcat | src/import.rs:1696-1703 | a join takes its parts' non-blank texts in order |
| RowMapping.JoinConcat | src/import.rs:1696-1703 | with the separator between each two |
| RowMapping.RemovingBlanksTheCell | src/import.rs:322-341 | removing a source column from a storage column is reading the row with that cell blank |
| RowMapping.CellsBeyondWidthAreDropped | src/import.rs:1600-1610 | a row and its cut to the table's width give the same record when the mapping reads no column beyond it |
| RowSink.PreparedDropsBeyondWidth | src/import.rs:1600-1634 | every table an import prepares is such a table, after overrides and fixed values |
| Normalizers.CollapseWs | src/import.rs:1924-1942 | the loop returns the text's words joined by single blanks |
| Normalizers.CollapseIsIdempotent | src/import.rs:1924-1942 | collapsing collapsed text changes nothing |
| Normalizers.NormalizeDateIsIdempotent | src/import.rs:1947-1983 | normalizing a date twice is normalizing it once |
| Normalizers.DatesNormalizeExactly | src/import.rs:1947-1983 | any day, month and four-digit year, padded or not, in either order and with any separators, become their ISO date exactly when the month is one of twelve and the day one of thirty-one, and otherwise stay as written |
| Normalizers.SpellingsAgree | src/import.rs:1944-1946 | a day-first and a year-first spelling of one date, with any separators, give the same ISO date |
| RowSink.Sink.StopIfCancelled | src/import.rs:1828-1835 | a seen cancellation drops the batch and is remembered |
| RowSink.Sink.FlushBatch | src/import.rs:1782-1805 | hands the batch over in order, or drops it on cancellation, or reports the failed insert |
| RowSink.Sink.CountQualityCells | src/import.rs:1730-1742 | adds each source column to exactly one of the two counters |
| RowSink.Sink.DataRow | src/import.rs:1682-1728 | extends what was handed over or batched by exactly the row's record, if it has one, and keeps the batch below its size and the cell counts equal to columns times counted rows |
| RowSink.Sink.StartDetectedImport | src/import.rs:1591-1680 | prepares the detected table, registers its schema and replays the buffered rows after the header; it fails only when no table is detected, the overrides or fixed values are refused, or the database fails |
| RowSink.PreparedHolds | src/import.rs:1600-1655 | the prepared table is as wide as the wider of the declared and the detected one, and its dates are the extras said, or else found, to be dates |
| RowSink.NothingIsSkipped | src/import.rs:1807-1826 | an importable sheet with anything in it hands over the records of all rows after its header |
| RowSink.NonBlankCellsAre | src/import.rs:1730-1742 | the quality counter counts the non-blank cells among the table's columns |
| RowSink.Sink.Row | src/import.rs:1571-1589 | between rows: cells seen stay within the cap, and the records so far are those of the rows after the header, whatever the buffer and batch boundaries |
| RowSink.Sink.Finish | src/import.rs:1807-1826 | without cancellation the records handed over are exactly the expected ones and as many as were counted |
| FileImport.FeedCells | src/import.rs:1446-1459 | interleaving the assembler with the sink feeds exactly the stream's rows, in order and each once, until the sink stops or something fails |
| FileImport.RowsIn | src/import.rs:1446-1459 | a stream in row order gives the sink one row per distinct sheet row |
| FileImport.ImportSheet | src/import.rs:1392-1460 | a sheet read to its end hands over exactly its expected records, those of the assembled rows of its cell stream or of its range, and without a failed read or database call it is refused only when it cannot be imported |
| FileImport.ImportSheets | src/import.rs:1293-1354 | the chosen sheets follow one another, and a choice without any table is an error |
| FileImport.SelectSheets | src/import.rs:1261-1291 | succeeds if and only if the workbook has sheets, not too many, and the selection is some of them, and returns the chosen ones |
| FileImport.ImportDelimitedFile | src/import.rs:1115-1255 | a delimited file is one table: it succeeds only with its expected records and is refused only for an empty choice or a table that cannot be imported |
| FileImport.ChosenPlaces | src/import.rs:1281-1291 | the places of the chosen sheets ascend and are exactly those of the selected names |
| FileImport.ImportFileInner | src/import.rs:1200-1354 | opens the workbook or the delimited file, selects and imports; it succeeds only with the expected records of every chosen sheet, without cancellation or failure is refused only when the file cannot be imported, and fails or stops only for a failure or cancellation it was given |
| FileImport.ImportFile | src/import.rs:643-802 | with valid options skips exactly the files whose hash it finds logged; commits the records of all chosen sheets and logs the hash, or leaves both as they were; undisturbed it commits a new file if and only if its options are valid, the choice is sound and every chosen sheet is importable, one of them holding a table in a workbook |
| Launcher.ProcessSlot.Activate | src/launcher.rs:426-434 | stops the child and sets the generation |
| Launcher.ProcessSlot.ReplaceForGeneration | src/launcher.rs:436-449 | installs the child for the active generation and otherwise kills it |
| Launcher.ProcessSlot.StopForGeneration | src/launcher.rs:451-460 | stops the child only for the active generation |
| Launcher.ProcessSlot.IsRunningForGeneration | src/launcher.rs:476-493 | answers for the active generation and forgets a child that has exited |
| Launcher.LauncherModel.BeginStart | src/launcher.rs:535-543 | opens the next generation with no URLs and no browser opened |
| Launcher.LauncherModel.Apply | src/launcher.rs:587-629 | an event of the current generation changes the model, another one nothing |
| Launcher.LauncherController.Poll | src/launcher.rs:741-761 | drains the channel in order, then fails a ready workspace without a live child of its generation, clearing its URLs; what it leaves ready has one |
| Launcher.LauncherController.Restart | src/launcher.rs:734-739 | is a stop followed by a start |
| Launcher.LauncherController.Drop | src/launcher.rs:816-820 | closing stops the slot's child and leaves the generation as it is |
| LauncherRuns.NextGenerationOf | src/launcher.rs:535-536 | the wrapping, zero-skipping generation after a number of starts and stops |
| LauncherRuns.SameGeneration | src/launcher.rs:568-569 | two starts or stops share a generation exactly when a whole number of wraps separates them |
| LauncherRuns.RunKeepsOwned | src/launcher.rs:425-494 | every run keeps the ownership of live children by the slot or by the worker that spawned them |
| LauncherRuns.SlotHoldsTheActiveGeneration | src/launcher.rs:425-494 | the slot only holds a child spawned for its generation, and every other live child is between its spawn and its worker's replace |
| LauncherRuns.AtMostOneChild | src/launcher.rs:436-449 | at most one child is alive once no worker holds one |
| LauncherRuns.CheckFindsDeadServers | src/launcher.rs:754-760 | in every run, after a check a ready workspace has a live server of its generation, one without has failed and shows no URLs, and nothing else changes |
| LauncherRuns.DeadServerIsNoticed | src/launcher.rs:754-760 | a ready workspace whose server dies has failed after the next check |
| LauncherRuns.PollIsItsSteps | src/launcher.rs:741-760 | a poll is the waiting events applied one by one, and then the check |
| LauncherRuns.StartReachesReady | src/launcher.rs:1428-1537 | from any quiet state a start whose worker goes through ends ready, with its URLs, a live server and the browser asked for as told |
| LauncherRuns.StartGivesUp | src/launcher.rs:1428-1537 | one whose server never answers ends failed, with that server killed |
| LauncherRuns.StopStops | src/launcher.rs:728-732 | a stop leaves no server of the slot alive and no URLs |
| LauncherRuns.GoesOnExactlyWhenCurrent | src/launcher.rs:1439-1441 | a worker passes its first check if and only if a whole number of wraps, usually none, lies between its start and the slot's; otherwise it ends without a trace |
| LauncherRuns.InstallsExactlyWhenCurrent | src/launcher.rs:1508-1515 | a worker installs its child if and only if a whole number of wraps separates it from the slot; otherwise only that child changes, and dies |
| LauncherRuns.StoppedSlotIsEmpty | src/launcher.rs:728-732 | after a stop no older worker can install a child |
| LauncherRuns.StoppedSlotFillsAfterAWrap | src/launcher.rs:568-576 | beyond 2^64 - 1 stops one can |
| LauncherRuns.ClosingLeavesHeldChildren | src/launcher.rs:816-820 | closing kills every child except those workers hold |
| LauncherRuns.RunIsOrderly | src/launcher.rs:1428-1537 | status and URLs always match what the current start's worker has sent and what still waits |
| LauncherRuns.UrlsFollowStatus | src/launcher.rs:587-629 | URLs are absent when stopped or failed, and a ready launcher has its local one |
| LauncherRuns.BrowserOpensOncePerStart | src/launcher.rs:608-618 | in every run no start opens the browser twice or before it is ready; short of a wrap a ready one has opened it exactly when asked to |
| LauncherRuns.WaitingEventAppliesAfterAWrap | src/launcher.rs:587-629 | beyond 2^64 - 1 stops an event still waiting gives a stopped launcher URLs, or makes it ready without any and without opening the browser |
| LauncherRuns.StaleEventsChangeNothing | src/launcher.rs:741-745 | an event of another start changes nothing unless a whole number of wraps lies between |
| CountWorker.SearchCountWorker.Drain | src/workers.rs:322-340 | a drained batch leaves the newest count not followed by a clear, and an empty cache if any clear was in it |
| CountWorker.SearchCountWorker.Respond | src/workers.rs:345-360 | answers from the cache or from a fresh count, and caches only successes |
| CountWorker.CacheStaysSound | src/workers.rs:321-362 | a cached total is a direct count of that query made after the last processed clear |
| CountWorker.StampsAreKept | src/workers.rs:322-340 | in every run the processed and the queued clears lead to the last one sent |
| CountWorker.RunIsTraced | src/workers.rs:321-362 | in every run each queued or pending count, and the cached total, goes back to a count the application sent, in the epoch of clears the thread has come to |
| CountWorker.SafeIsFresh | src/workers.rs:345-349 | no run of a safe script, in which no change without a clear lies between two counts of one query, gives a stale reply |
| CountWorker.RepliesAreFresh | src/workers.rs:321-362 | when a clear follows every change before the next count, every reply is a direct count in a version no older than its request; a consequence of `SafeIsFresh` |
| CountWorker.StaleWithoutClear | src/workers.rs:345-349 | a script with a change but no clear between two counts of one query has a run whose second reply is older than its request: the thread answers the first count at once and reads on only when the second is there |
| CountWorker.FreshExactly | src/workers.rs:321-362 | for every script of the application, all replies are fresh in every interleaving and for every database if and only if the script is safe |
| PhaseWire.RoundTrip | src/db_types.rs:63-78 | a printed phase line, with any whitespace around it, parses back to the phase, for all counts |
| PhaseWire.LinesAreDistinct | src/db_types.rs:34-67 | distinct phases never print the same line |
| PhaseWire.AcceptedLines | src/db_types.rs:69-78 | any accepted line names the phase it was read as |

## Left out

- Storage, search, SQLite, DuckDB and spreadsheet decoding, header detection, the analytics of the SQLite engine, and `inherited_measures`: they enter as stated assumptions or arbitrary functions.
- Fingerprint.FingerprintIsInjective: does not model collisions of SHA-256, because the stream stands for its hash.
- SourceTracking.CurrentIsNeverWrong: does not model a writer between the drop and the recreation of a trigger, because the reinstall is one step.
- SourceTracking.RebuildIsFinal: takes the rebuild as one step; its recovery after an interruption between dropping and renaming the table is not modelled.
- LauncherRuns.UrlsFollowStatus: holds short of the first generation wrap, after 2^64 - 1 starts and stops; the exact condition for one event is `StaleEventsChangeNothing`.
- LauncherRuns.BrowserOpensOncePerStart: its last clause holds short of the first generation wrap; `WaitingEventAppliesAfterAWrap` shows that both bounds are needed.
- LauncherRuns.StoppedSlotIsEmpty: holds short of the first generation wrap; `InstallsExactlyWhenCurrent` is the unbounded statement.
- Launcher display texts, logs, preferences, port selection, mode changes and failed kills; a lock is never poisoned.
- Measures: bucket lists are maps and unit lists are sets, so the display order of the buckets is not modelled.
- Prices.CohortsStayBounded: does not cover the quantiles, because their interpolation belongs to DuckDB.
- The other price metrics, `rollup_currency_totals` and `rollup_price_per_kg_baselines`: written by the build, read by no answer modelled here.
- RowSink.Sink.DataRow: does not compute the record's hash and year, which are functions of the values, the extras and the row.
- RowMapping.EveryCellIsKept: keeps extra pairs as (column, text) and leaves their JSON text to the serializer.
- Import summaries beyond the row and cell counters, progress reports, and the duplicate counts of inserts.
- RowSink.Sink.StartDetectedImport: what the registration writes is not modelled, only that it may fail.
- FileImport.ImportSheet: a sheet whose declared dimensions end before they begin counts as one that cannot be opened.
- FileImport.ImportFile: takes the hash of content and options as given, and leaves index building, full-text indexing and currency detection out.
- FileSwap.BuildRepeatedly: builds of one label follow one another; two processes swapping at the same moment are not modelled.
- Export, benchmarks, the user interface, translations and the web assets.
