/** Importing a whole file inside one transaction: either every record of every selected
    sheet is committed, or nothing is, and the same file is not imported again. */
module FileImport {
  import opened Basics
  import opened RowMapping
  import opened RowSink
  import opened RowAssembler
  import ColumnMapping

  const MAX_WORKBOOK_SHEETS := 256

  /** Where a sheet's rows come from: a cell stream, or rows that are read as they are. */
  datatype Source =
    | Cells(cells: seq<Cell>, offset: nat)
    | Range(rows: seq<seq<Data>>)

  /** A sheet, with what its import will see of the cancel flag, of database calls and of the
      file: `readFails(0)` is the opening of the sheet and `readFails(n + 1)` the read of its
      n-th cell or row, the one that finds the end included. */
  datatype Sheet = Sheet(source: Source, settings: Settings, cancels: nat -> bool, fails: nat -> bool,
                         schemaFails: bool, readFails: nat -> bool)

  /** A sheet that is read without failures, database failures or a cancellation. */
  ghost predicate IsCalm(sheet: Sheet) {
    && (forall i :: !sheet.cancels(i)) && (forall i :: !sheet.fails(i)) && !sheet.schemaFails
    && (forall i :: !sheet.readFails(i))
  }

  /** The rows of a sheet; a stream in row order gives one per distinct sheet row. */
  function RowsIn(source: Source): (rows: seq<seq<Data>>)
    ensures source.Cells? && InRowOrder(source.cells) ==> rows == RowsOf(source.cells, source.offset)
  {
    match source
    case Range(rows) => rows
    case Cells(cells, offset) =>
      assert InRowOrder(cells) ==> Collected(cells, offset) == RowsOf(cells, offset) by {
        hide InRowOrder, Collected, RowsOf;
        if InRowOrder(cells) {
          CollectedIsRows(cells, offset);
        }
      }
      Collected(cells, offset)
  }

  // ---------- prefixes of a sheet ----------

  lemma {:induction false} CellsGrow<D>(rows: seq<seq<D>>, n: nat)
    requires n <= |rows|
    ensures SourceCells(rows[..n]) <= SourceCells(rows)
  {
    if n < |rows| {
      var before := rows[..|rows| - 1];
      CellsGrow(before, n);
      assert before[..n] == rows[..n];
    } else {
      assert rows[..n] == rows;
    }
  }

  /** A sheet whose beginning cannot be imported cannot be imported. */
  lemma PrefixImportable<D>(rules: Rules<D>, settings: Settings, rows: seq<seq<D>>, n: nat)
    requires n <= |rows| && Importable(rules, settings, rows)
    ensures FitsLimits(rows[..n])
    ensures n >= DETECTION_BUFFER_ROWS ==>
      CanImport(rules, settings, rows[..n]) && Importable(rules, settings, rows[..n])
  {
    hide CanPrepare, SourceCells;
    CellsGrow(rows, n);
    if n >= DETECTION_BUFFER_ROWS {
      assert UpTo(rows[..n], DETECTION_BUFFER_ROWS) == UpTo(rows, DETECTION_BUFFER_ROWS);
    }
  }

  /** Rows finished by the assembler are the first rows of the sheet. */
  lemma {:induction false} FedGrows(cells: seq<Cell>, offset: nat, n: nat)
    requires n <= |cells|
    ensures Fed(cells[..n], offset).1 <= Collected(cells, offset)
    decreases |cells| - n
  {
    hide Pushed;
    if n < |cells| {
      assert cells[..n + 1][..n] == cells[..n];
      FedGrows(cells, offset, n + 1);
    } else {
      assert cells[..n] == cells;
    }
  }

  /** What feeding a sheet's rows to a sink leaves: all of them, or as many as it took before it
      stopped, and a refusal only for a reason. */
  ghost predicate HasFed(sink: Sink<Data>, rows: seq<seq<Data>>, fed: seq<seq<Data>>, ok: bool, readFailed: bool)
    reads sink, sink.db
  {
    && fed <= rows
    && (ok ==> sink.Valid(fed) && !sink.databaseFailed && !readFailed)
    && (ok && fed != rows ==> sink.cancelled && |fed| >= DETECTION_BUFFER_ROWS)
    && (!ok && !readFailed && !sink.databaseFailed ==> !Importable(sink.rules, sink.settings, rows))
  }

  /** The row a sink refused without a database failure makes the sheet impossible to import. */
  lemma RefusedRow(rules: Rules<Data>, settings: Settings, rows: seq<seq<Data>>, fed: seq<seq<Data>>)
    requires fed <= rows
    requires FitsLimits(fed) ==> |fed| == DETECTION_BUFFER_ROWS && !CanImport(rules, settings, fed)
    ensures !Importable(rules, settings, rows)
  {
    hide CanImport, FitsLimits, Importable;
    assert rows[..|fed|] == fed;
    if Importable(rules, settings, rows) {
      PrefixImportable(rules, settings, rows, |fed|);
    }
  }

  /** Rows read as they are, until the sink stops. */
  method FeedRows(sink: Sink<Data>, rows: seq<seq<Data>>, readFails: nat -> bool)
    returns (result: Result<()>, readFailed: bool, ghost fed: seq<seq<Data>>)
    requires sink.Valid([]) && !sink.databaseFailed
    modifies sink, sink.db`records
    ensures HasFed(sink, rows, fed, result.Ok?, readFailed)
    ensures sink.IsCalm() ==> sink.cancelled == old(sink.cancelled) && !sink.databaseFailed
    ensures (forall i :: !readFails(i)) ==> !readFailed
  {
    hide Importable, Expected, FitsLimits, SourceCells, IsDetector, CanImport, IsSkipped;
    var next := 0;
    fed := [];
    while next < |rows|
      invariant 0 <= next <= |rows| && fed == rows[..next]
      invariant sink.Valid(fed) && !sink.databaseFailed
      invariant sink.IsCalm() ==> sink.cancelled == old(sink.cancelled)
    {
      if readFails(next + 1) {
        return Err("row not read"), true, fed;
      }
      fed := fed + [rows[next]];
      assert fed <= rows;
      var taken := sink.Row(rows[next], rows[..next]);
      if taken.Err? {
        if !sink.databaseFailed {
          RefusedRow(sink.rules, sink.settings, rows, fed);
        }
        return Err(taken.error), false, fed;
      }
      next := next + 1;
      if !taken.value {
        return Ok(()), false, fed;
      }
    }
    readFailed := readFails(next + 1);
    result := if readFailed then Err("row not read") else Ok(());
  }

  /** A cell stream, assembled row by row into the sink until it stops. */
  method FeedCells(sink: Sink<Data>, cells: seq<Cell>, offset: nat, readFails: nat -> bool)
    returns (result: Result<()>, readFailed: bool, ghost fed: seq<seq<Data>>)
    requires sink.Valid([]) && !sink.databaseFailed
    modifies sink, sink.db`records
    ensures HasFed(sink, Collected(cells, offset), fed, result.Ok?, readFailed)
    ensures sink.IsCalm() ==> sink.cancelled == old(sink.cancelled) && !sink.databaseFailed
    ensures (forall i :: !readFails(i)) ==> !readFailed
  {
    hide Importable, Expected, FitsLimits, SourceCells, IsDetector, CanImport, IsSkipped, Pushed, Fed, Collected;
    var assembler := new Assembler.WithColumnOffset(offset);
    var next := 0;
    fed := [];
    FedStart(offset);
    while next < |cells|
      invariant 0 <= next <= |cells| && fresh(assembler) && assembler.columnOffset == offset
      invariant (assembler.View(), fed) == Fed(cells[..next], offset)
      invariant sink.Valid(fed) && !sink.databaseFailed
      invariant sink.IsCalm() ==> sink.cancelled == old(sink.cancelled)
    {
      FedGrows(cells, offset, next);
      if readFails(next + 1) {
        return Err("cell not read"), true, fed;
      }
      FedStep(cells, offset, next);
      FedGrows(cells, offset, next + 1);
      var cell := cells[next];
      var finished := assembler.Push(cell.row, cell.col, cell.value);
      if finished.Some? {
        ghost var before := fed;
        fed := fed + [finished.value];
        var taken := sink.Row(finished.value, before);
        if taken.Err? {
          if !sink.databaseFailed {
            RefusedRow(sink.rules, sink.settings, Collected(cells, offset), fed);
          }
          return Err(taken.error), false, fed;
        }
        if !taken.value {
          return Ok(()), false, fed;
        }
      }
      next := next + 1;
    }
    FedGrows(cells, offset, next);
    FedEnd(cells, offset);
    assert cells[..next] == cells;
    readFailed := readFails(next + 1);
    if readFailed {
      return Err("cell not read"), true, fed;
    }
    var last := assembler.Take();
    if last.Some? {
      ghost var before := fed;
      fed := fed + [last.value];
      var taken := sink.Row(last.value, before);
      if taken.Err? {
        if !sink.databaseFailed {
          RefusedRow(sink.rules, sink.settings, Collected(cells, offset), fed);
        }
        return Err(taken.error), false, fed;
      }
    }
    result := Ok(());
  }

  lemma FedStart(offset: nat)
    ensures Fed([], offset) == (Assembly(None, []), [])
  {
  }

  lemma FedStep(cells: seq<Cell>, offset: nat, n: nat)
    requires n < |cells|
    ensures var (before, rows) := Fed(cells[..n], offset);
      var (after, finished) := Pushed(before, offset, cells[n]);
      Fed(cells[..n + 1], offset) == (after, if finished.Some? then rows + [finished.value] else rows)
  {
    hide Pushed;
    assert cells[..n + 1][..n] == cells[..n];
  }

  lemma FedEnd(cells: seq<Cell>, offset: nat)
    ensures var (a, rows) := Fed(cells, offset);
      Collected(cells, offset) == if a.current.Some? then rows + [a.cells] else rows
  {
    hide Fed;
  }

  /** A table that can be imported: its rows are within the limits, and it has a header and
      sound settings or nothing at all. */
  predicate TableImportable(rules: Rules<Data>, sheet: Sheet) {
    Importable(rules, sheet.settings, RowsIn(sheet.source))
  }

  /** A workbook's sheet is also checked for its declared width. */
  predicate SheetImportable(rules: Rules<Data>, sheet: Sheet) {
    sheet.settings.sourceWidth <= MAX_SOURCE_COLUMNS && TableImportable(rules, sheet)
  }

  /** The records a sheet should hand over. */
  ghost function ExpectedOf(rules: Rules<Data>, sheet: Sheet): seq<ImportRecord>
    requires IsDetector(rules) && TableImportable(rules, sheet)
  {
    Expected(rules, sheet.settings, RowsIn(sheet.source))
  }

  predicate IsEmptySheet(rules: Rules<Data>, sheet: Sheet) {
    IsSkipped(rules, RowsIn(sheet.source))
  }

  /** An opened table: every row goes through the sink until it stops, then the sink finishes. */
  method ImportTable(db: Database, rules: Rules<Data>, sheet: Sheet)
    returns (result: Result<()>, cancelled: bool, failed: bool, detected: bool)
    requires IsDetector(rules)
    modifies db`records
    ensures result.Ok? && !cancelled ==> !failed && TableImportable(rules, sheet)
    ensures result.Ok? && !cancelled ==> db.records == old(db.records) + ExpectedOf(rules, sheet)
    ensures result.Ok? && !cancelled ==> (detected <==> !IsEmptySheet(rules, sheet))
    ensures result.Err? && !failed ==> !TableImportable(rules, sheet)
    ensures IsCalm(sheet) ==> !cancelled && !failed
  {
    hide Importable, Expected, FitsLimits, SourceCells, IsDetector, CanImport, IsSkipped, Collected;
    var sink := new Sink(db, rules, sheet.settings, sheet.cancels, sheet.fails, sheet.schemaFails);
    EmptyFits<Data>();
    assert IsCalm(sheet) ==> sink.IsCalm();
    var readFailed;
    ghost var fed;
    match sheet.source {
      case Cells(cells, offset) =>
        result, readFailed, fed := FeedCells(sink, cells, offset, sheet.readFails);
      case Range(rows) =>
        result, readFailed, fed := FeedRows(sink, rows, sheet.readFails);
    }
    if result.Ok? {
      ghost var rows := RowsIn(sheet.source);
      assert rows[..|fed|] == fed;
      result := sink.Finish(fed);
      if result.Err? && !sink.databaseFailed && Importable(rules, sheet.settings, rows) {
        PrefixImportable(rules, sheet.settings, rows, |fed|);
      }
    }
    cancelled, failed, detected := sink.cancelled, readFailed || sink.databaseFailed, sink.table.Some?;
  }

  /** One sheet of a workbook. */
  method ImportSheet(db: Database, rules: Rules<Data>, sheet: Sheet)
    returns (result: Result<()>, cancelled: bool, failed: bool, detected: bool)
    requires IsDetector(rules)
    modifies db`records
    ensures result.Ok? && !cancelled ==> !failed && SheetImportable(rules, sheet)
    ensures result.Ok? && !cancelled ==> db.records == old(db.records) + ExpectedOf(rules, sheet)
    ensures result.Ok? && !cancelled ==> (detected <==> !IsEmptySheet(rules, sheet))
    ensures result.Err? && !failed ==> !SheetImportable(rules, sheet)
    ensures IsCalm(sheet) ==> !cancelled && !failed
  {
    hide TableImportable, ExpectedOf, IsDetector, IsEmptySheet;
    if sheet.readFails(0) {
      return Err("sheet not opened"), false, true, false;
    }
    if sheet.settings.sourceWidth > MAX_SOURCE_COLUMNS {
      return Err("too many columns"), false, false, false;
    }
    result, cancelled, failed, detected := ImportTable(db, rules, sheet);
  }

  lemma EmptyFits<D>()
    ensures FitsLimits<D>([]) && SourceCells<D>([]) == 0
  {
  }

  // ---------- the file transaction ----------

  predicate AllImportable(rules: Rules<Data>, sheets: seq<Sheet>) {
    forall i :: 0 <= i < |sheets| ==> SheetImportable(rules, sheets[i])
  }

  ghost predicate AreCalm(sheets: seq<Sheet>) {
    forall i :: 0 <= i < |sheets| ==> IsCalm(sheets[i])
  }

  /** Some sheet holds a table. */
  predicate SomeTable(rules: Rules<Data>, sheets: seq<Sheet>) {
    exists i :: 0 <= i < |sheets| && !IsEmptySheet(rules, sheets[i])
  }

  ghost function ExpectedOfAll(rules: Rules<Data>, sheets: seq<Sheet>): seq<ImportRecord>
    requires IsDetector(rules) && AllImportable(rules, sheets)
  {
    if sheets == [] then []
    else
      var last := sheets[|sheets| - 1];
      assert SheetImportable(rules, last);
      ExpectedOfAll(rules, sheets[..|sheets| - 1]) + ExpectedOf(rules, last)
  }

  lemma ExpectedStep(rules: Rules<Data>, before: seq<Sheet>, last: Sheet)
    requires IsDetector(rules) && AllImportable(rules, before) && SheetImportable(rules, last)
    ensures AllImportable(rules, before + [last])
    ensures ExpectedOfAll(rules, before + [last]) ==
      ExpectedOfAll(rules, before) + ExpectedOf(rules, last)
  {
    hide SheetImportable, ExpectedOf, IsDetector;
    assert (before + [last])[..|before|] == before;
  }

  /** The selected sheets of a workbook, one after the other, while the flag stays clear. */
  method ImportSheets(db: Database, rules: Rules<Data>, sheets: seq<Sheet>, cancelBefore: nat -> bool)
    returns (result: Result<()>, cancelled: bool, failed: bool)
    requires IsDetector(rules)
    modifies db`records
    ensures result.Ok? && !cancelled ==> AllImportable(rules, sheets) && SomeTable(rules, sheets)
    ensures result.Ok? && !cancelled ==> db.records == old(db.records) + ExpectedOfAll(rules, sheets)
    ensures result.Err? && !failed ==> !(AllImportable(rules, sheets) && SomeTable(rules, sheets))
    ensures (forall i :: !cancelBefore(i)) && AreCalm(sheets) ==> !cancelled && !failed
  {
    hide TableImportable, ExpectedOf, IsDetector, IsEmptySheet, IsCalm;
    cancelled, failed := false, false;
    var imported, next := 0, 0;
    assert db.records == old(db.records) + [];
    while next < |sheets|
      invariant 0 <= next <= |sheets| && !cancelled && !failed
      invariant AllImportable(rules, sheets[..next])
      invariant db.records == old(db.records) + ExpectedOfAll(rules, sheets[..next])
      invariant imported > 0 <==> SomeTable(rules, sheets[..next])
    {
      if cancelBefore(next) {
        cancelled := true;
        return Ok(()), cancelled, failed;
      }
      ghost var before, taken := sheets[..next], ExpectedOfAll(rules, sheets[..next]);
      var sheet := sheets[next];
      var one, stopped, sheetFailed, detected := ImportSheet(db, rules, sheet);
      if one.Err? {
        return one, stopped, sheetFailed;
      }
      if stopped {
        return Ok(()), true, sheetFailed;
      }
      if detected {
        imported := imported + 1;
      }
      assert sheets[..next + 1] == before + [sheet];
      ExpectedStep(rules, before, sheet);
      Associative(old(db.records), taken, ExpectedOf(rules, sheet));
      SomeTableStep(rules, before, sheet);
      next := next + 1;
    }
    assert sheets[..next] == sheets;
    if imported == 0 {
      return Err("no non-empty table"), cancelled, failed;
    }
    result := Ok(());
  }

  lemma SomeTableStep(rules: Rules<Data>, before: seq<Sheet>, last: Sheet)
    ensures SomeTable(rules, before + [last]) <==> SomeTable(rules, before) || !IsEmptySheet(rules, last)
  {
    hide IsEmptySheet;
    var all := before + [last];
    assert all[|before|] == last;
    if SomeTable(rules, before) {
      var i :| 0 <= i < |before| && !IsEmptySheet(rules, before[i]);
      assert all[i] == before[i];
    }
  }

  // ---------- the workbook ----------

  /** A workbook's sheets, in its order and by name. */
  datatype Workbook = Workbook(names: seq<string>, sheets: map<string, Sheet>)

  predicate IsWorkbook(w: Workbook) {
    forall name <- w.names :: name in w.sheets
  }

  predicate IsChosen(selected: Option<set<string>>, name: string) {
    selected.None? || name in selected.value
  }

  /** The places of the chosen names, in order. */
  function ChosenPlaces(names: seq<string>, selected: Option<set<string>>): (places: seq<nat>)
    ensures forall j, k :: 0 <= j < k < |places| ==> places[j] < places[k]
    ensures forall i :: i in places <==> 0 <= i < |names| && IsChosen(selected, names[i])
  {
    if names == [] then []
    else
      var before, last := names[..|names| - 1], names[|names| - 1];
      var places := ChosenPlaces(before, selected);
      assert forall k :: 0 <= k < |places| ==> places[k] in places;
      places + (if IsChosen(selected, last) then [|before|] else [])
  }

  /** The chosen sheets, in the workbook's order. */
  function ChosenSheets(w: Workbook, selected: Option<set<string>>): seq<Sheet>
    requires IsWorkbook(w)
  {
    var places := ChosenPlaces(w.names, selected);
    seq(|places|, k requires 0 <= k < |places| =>
      assert places[k] in places;
      w.sheets[w.names[places[k]]])
  }

  ghost predicate IsCalmWorkbook(w: Workbook)
    requires IsWorkbook(w)
  {
    forall name <- w.names :: IsCalm(w.sheets[name])
  }

  lemma ChosenAreCalm(w: Workbook, selected: Option<set<string>>)
    requires IsWorkbook(w) && IsCalmWorkbook(w)
    ensures AreCalm(ChosenSheets(w, selected))
  {
    hide IsCalm;
    var places := ChosenPlaces(w.names, selected);
    forall k | 0 <= k < |places| ensures IsCalm(ChosenSheets(w, selected)[k]) {
      assert places[k] in places;
    }
  }

  /** The sheets of a workbook are few enough, and the chosen ones are some and among them. */
  predicate CanChoose(w: Workbook, selected: Option<set<string>>) {
    && 0 < |w.names| <= MAX_WORKBOOK_SHEETS
    && (selected.Some? ==> selected.value != {} && forall name <- selected.value :: name in w.names)
  }

  method SelectSheets(w: Workbook, selected: Option<set<string>>) returns (result: Result<seq<Sheet>>)
    requires IsWorkbook(w)
    ensures result.Ok? <==> CanChoose(w, selected)
    ensures result.Ok? ==> result.value == ChosenSheets(w, selected)
  {
    if w.names == [] {
      return Err("no sheets");
    }
    if |w.names| > MAX_WORKBOOK_SHEETS {
      return Err("too many sheets");
    }
    if selected.Some? {
      if selected.value == {} {
        return Err("no sheet selected");
      }
      var missing := set name <- selected.value | name !in w.names;
      if missing != {} {
        return Err("sheets not found");
      }
      assert forall name <- selected.value :: name !in missing;
    }
    result := Ok(ChosenSheets(w, selected));
  }

  /** A workbook that can be imported: its choice is sound, every chosen sheet can be imported
      and one of them holds a table. */
  predicate WorkbookImportable(rules: Rules<Data>, w: Workbook, selected: Option<set<string>>)
    requires IsWorkbook(w)
  {
    && CanChoose(w, selected)
    && AllImportable(rules, ChosenSheets(w, selected))
    && SomeTable(rules, ChosenSheets(w, selected))
  }

  ghost function ExpectedOfChosen(rules: Rules<Data>, w: Workbook, selected: Option<set<string>>): seq<ImportRecord>
    requires IsDetector(rules) && IsWorkbook(w) && WorkbookImportable(rules, w, selected)
  {
    ExpectedOfAll(rules, ChosenSheets(w, selected))
  }

  // ---------- the file ----------

  /** A delimited file is a single table; its choice of sheets only must not be empty. */
  datatype File = Delimited(sheet: Sheet) | Spreadsheet(workbook: Workbook)

  predicate IsFile(file: File) {
    file.Spreadsheet? ==> IsWorkbook(file.workbook)
  }

  ghost predicate IsCalmFile(file: File)
    requires IsFile(file)
  {
    match file
    case Delimited(sheet) => IsCalm(sheet)
    case Spreadsheet(workbook) => IsCalmWorkbook(workbook)
  }

  predicate FileImportable(rules: Rules<Data>, file: File, selected: Option<set<string>>)
    requires IsFile(file)
  {
    match file
    case Delimited(sheet) => selected != Some({}) && TableImportable(rules, sheet)
    case Spreadsheet(workbook) => WorkbookImportable(rules, workbook, selected)
  }

  ghost function ExpectedOfFile(rules: Rules<Data>, file: File, selected: Option<set<string>>): seq<ImportRecord>
    requires IsDetector(rules) && IsFile(file) && FileImportable(rules, file, selected)
  {
    match file
    case Delimited(sheet) => ExpectedOf(rules, sheet)
    case Spreadsheet(workbook) => ExpectedOfChosen(rules, workbook, selected)
  }

  method ImportDelimitedFile(db: Database, rules: Rules<Data>, sheet: Sheet, selected: Option<set<string>>)
    returns (result: Result<()>, cancelled: bool, failed: bool)
    requires IsDetector(rules)
    modifies db`records
    ensures result.Ok? && !cancelled ==> selected != Some({}) && TableImportable(rules, sheet)
    ensures result.Ok? && !cancelled ==> db.records == old(db.records) + ExpectedOf(rules, sheet)
    ensures result.Err? && !failed ==> selected == Some({}) || !TableImportable(rules, sheet)
    ensures IsCalm(sheet) ==> !cancelled && !failed
  {
    hide TableImportable, ExpectedOf, IsDetector, IsEmptySheet;
    if selected.Some? && selected.value == {} {
      return Err("no table selected"), false, false;
    }
    if sheet.readFails(0) {
      return Err("file not opened"), false, true;
    }
    var detected;
    result, cancelled, failed, detected := ImportTable(db, rules, sheet);
  }

  method ImportWorkbook(db: Database, rules: Rules<Data>, w: Workbook, selected: Option<set<string>>,
                        cancelBefore: nat -> bool)
    returns (result: Result<()>, cancelled: bool, failed: bool)
    requires IsDetector(rules) && IsWorkbook(w)
    modifies db`records
    ensures result.Ok? && !cancelled ==> WorkbookImportable(rules, w, selected)
    ensures result.Ok? && !cancelled ==> db.records == old(db.records) + ExpectedOfChosen(rules, w, selected)
    ensures result.Err? && !failed ==> !WorkbookImportable(rules, w, selected)
    ensures (forall i :: !cancelBefore(i)) && IsCalmWorkbook(w) ==> !cancelled && !failed
  {
    hide AllImportable, SomeTable, ExpectedOfAll, IsDetector, CanChoose, ChosenSheets, AreCalm, IsCalmWorkbook;
    if IsCalmWorkbook(w) {
      ChosenAreCalm(w, selected);
    }
    var selection := SelectSheets(w, selected);
    if selection.Err? {
      return Err(selection.error), false, false;
    }
    result, cancelled, failed := ImportSheets(db, rules, selection.value, cancelBefore);
  }

  /** `import_file_inner`; a workbook that cannot be opened is `None`. */
  method ImportFileInner(db: Database, rules: Rules<Data>, file: Option<File>, selected: Option<set<string>>,
                         cancelBefore: nat -> bool)
    returns (result: Result<()>, cancelled: bool, failed: bool)
    requires IsDetector(rules) && (file.Some? ==> IsFile(file.value))
    modifies db`records
    ensures file.None? ==> failed && result.Err?
    ensures result.Ok? && !cancelled ==> FileImportable(rules, file.value, selected)
    ensures result.Ok? && !cancelled ==> db.records == old(db.records) + ExpectedOfFile(rules, file.value, selected)
    ensures result.Err? && !failed ==> !FileImportable(rules, file.value, selected)
    ensures file.Some? && (forall i :: !cancelBefore(i)) && IsCalmFile(file.value) ==> !cancelled && !failed
  {
    hide WorkbookImportable, ExpectedOfChosen, TableImportable, ExpectedOf, IsDetector, IsCalm, IsCalmWorkbook;
    if file.None? {
      return Err("workbook not opened"), false, true;
    }
    match file.value {
      case Delimited(sheet) =>
        result, cancelled, failed := ImportDelimitedFile(db, rules, sheet, selected);
      case Spreadsheet(workbook) =>
        result, cancelled, failed := ImportWorkbook(db, rules, workbook, selected, cancelBefore);
    }
  }

  /** The chosen sheets and the fixed values given for any sheet, chosen or not. */
  datatype Options = Options(selected: Option<set<string>>, fixedValues: seq<seq<ColumnMapping.FixedValue>>)

  predicate AreValid(options: Options) {
    forall values <- options.fixedValues :: ColumnMapping.AreFixable(values)
  }

  /** What the database calls around a file's transaction will see. */
  datatype Faults = Faults(lookup: bool, begin: bool, commit: bool, log: bool)

  /** Neither a failure nor a cancellation. */
  ghost predicate IsUndisturbed(file: Option<File>, hash: Option<string>, cancelBefore: nat -> bool, cancelAtEnd: bool,
                                faults: Faults)
    requires file.Some? ==> IsFile(file.value)
  {
    && hash.Some? && file.Some? && IsCalmFile(file.value)
    && (forall i :: !cancelBefore(i)) && !cancelAtEnd
    && faults == Faults(false, false, false, false)
  }

  datatype Outcome = Committed | Duplicate | Cancelled | Refused | Failed

  /** The file's transaction: committed only when every chosen sheet was read to its end, no
      cancellation was seen and the commit succeeded, and rolled back otherwise. `hash` is that of
      the content and the options, `None` when the file cannot be read; the log holds the hashes of
      committed files. */
  method ImportFile(db: Database, rules: Rules<Data>, file: Option<File>, options: Options, hash: Option<string>,
                    cancelBefore: nat -> bool, cancelAtEnd: bool, faults: Faults)
    returns (outcome: Outcome)
    requires IsDetector(rules) && (file.Some? ==> IsFile(file.value))
    modifies db
    // A logged file is skipped, whatever else holds of it.
    ensures AreValid(options) && hash.Some? && hash.value in old(db.log) && !faults.lookup <==> outcome.Duplicate?
    ensures outcome.Committed? ==>
      AreValid(options) && hash.Some? && file.Some? && FileImportable(rules, file.value, options.selected)
    ensures outcome.Committed? ==>
      db.records == old(db.records) + ExpectedOfFile(rules, file.value, options.selected)
    ensures outcome.Committed? ==> db.log == old(db.log) + (if faults.log then {} else {hash.value})
    ensures !outcome.Committed? ==> db.records == old(db.records) && db.log == old(db.log)
    ensures outcome.Refused? ==>
      !AreValid(options) || (file.Some? && !FileImportable(rules, file.value, options.selected))
    // Nothing but a cancellation or a failure keeps a sound and new file out.
    ensures IsUndisturbed(file, hash, cancelBefore, cancelAtEnd, faults) && !outcome.Duplicate? ==>
      (outcome.Committed? <==> AreValid(options) && FileImportable(rules, file.value, options.selected))
  {
    hide FileImportable, ExpectedOfFile, IsDetector, AreValid, IsFile, IsCalmFile;
    if !AreValid(options) {
      return Refused;
    }
    if hash.None? {
      return Failed;
    }
    if !faults.lookup && hash.value in db.log {
      return Duplicate;
    }
    if faults.begin {
      return Failed;
    }
    db.BeginImportFile();
    var result, cancelled, failed := ImportFileInner(db, rules, file, options.selected, cancelBefore);
    if result.Ok? && !cancelled && !cancelAtEnd && !faults.commit {
      if !faults.log {
        db.AddImportLog(hash.value);
      }
      assert db.log == old(db.log) + (if faults.log then {} else {hash.value});
      return Committed;
    }
    db.RollbackImportFile();
    outcome :=
      if result.Err? then (if failed then Failed else Refused)
      else if cancelled || cancelAtEnd then Cancelled
      else Failed;
  }
}
