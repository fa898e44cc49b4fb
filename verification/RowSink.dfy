/** The streaming import of one sheet: rows are buffered until the header is found, then
    mapped, batched and handed to the database, with cancellation polled along the way. */
module RowSink {
  import opened Basics
  import opened ColumnMapping
  import opened RowMapping

  const BATCH_SIZE := 8192
  const DETECTION_BUFFER_ROWS := 58
  const MAX_SOURCE_COLUMNS := 16384
  const MAX_SOURCE_CELLS := 100_000_000

  /** What header detection finds: a plan for every storage column. */
  datatype Detected = Detected(headerIndex: nat, width: nat, plan: seq<ColSrc>, semantics: map<nat, SemanticField>)

  /** Detection and the normalizers, which live elsewhere in the repository. */
  datatype Rules<!D> = Rules(detect: seq<seq<D>> -> Option<Detected>, cleaner: Cleaner<D>)

  datatype Settings = Settings(sourceWidth: nat, overrides: seq<Override>, fixed: seq<FixedValue>)

  // ---------- what an import should hand over ----------

  /** Detection finds a plan of the right shape that reads the columns of its own headers; an
      empty sheet has no table. */
  ghost predicate IsDetector<D(!new)>(rules: Rules<D>) {
    forall rows :: rules.detect(rows).Some? ==>
      var d := rules.detect(rows).value;
      |d.plan| == COLUMN_COUNT && ReadsBelow(d.plan, d.width) && d.headerIndex < |rows|
  }

  function SemanticAt(semantics: map<nat, SemanticField>, overrides: seq<Override>, i: nat): Option<SemanticField> {
    if overrides == [] then (if i in semantics then Some(semantics[i]) else None)
    else
      var last := overrides[|overrides| - 1];
      if last.index == i then last.semantic
      else SemanticAt(semantics, overrides[..|overrides| - 1], i)
  }

  function TableWidth(settings: Settings, d: Detected): nat {
    if settings.sourceWidth < d.width then d.width else settings.sourceWidth
  }

  predicate CanPrepare(settings: Settings, d: Detected) {
    Compatible(TableWidth(settings, d), settings.overrides) && AreFixable(settings.fixed)
  }

  function Prepared(settings: Settings, d: Detected): (table: Table)
    requires |d.plan| == COLUMN_COUNT && CanPrepare(settings, d)
    ensures IsTable(table)
  {
    var width := TableWidth(settings, d);
    var mapping := FinalMapping(d.plan, settings.overrides, settings.fixed);
    var extra := Unmapped(width, mapping);
    Table(width, mapping, extra, set i <- extra | SemanticAt(d.semantics, settings.overrides, i) == Some(Date))
  }

  /** A prepared table reads none of the cells beyond its width, so cutting them off a row
      leaves its record as it is. */
  lemma PreparedDropsBeyondWidth<D(!new)>(rules: Rules<D>, settings: Settings, rows: seq<seq<D>>, row: seq<D>)
    requires IsDetector(rules) && CanImport(rules, settings, rows)
    ensures var table := Prepared(settings, DetectedIn(rules, rows).value);
      table.width <= |row| ==> RecordOf(rules.cleaner, table, row) == RecordOf(rules.cleaner, table, row[..table.width])
  {
    var d := DetectedIn(rules, rows).value;
    var table := Prepared(settings, d);
    hide RecordOf, FinalMapping;
    FinalReadsBelow(d.plan, settings.overrides, settings.fixed, table.width);
    if table.width <= |row| {
      CellsBeyondWidthAreDropped(rules.cleaner, table, row);
    }
  }

  predicate IsOverridden(overrides: seq<Override>, i: nat) {
    exists o :: o in overrides && o.index == i
  }

  /** An overridden column has the semantic its override says, any other the detected one. */
  lemma {:induction false} SemanticIs(semantics: map<nat, SemanticField>, overrides: seq<Override>, i: nat)
    requires InKeyOrder(overrides)
    ensures forall o <- overrides :: o.index == i ==> SemanticAt(semantics, overrides, i) == o.semantic
    ensures !IsOverridden(overrides, i) ==>
      SemanticAt(semantics, overrides, i) == if i in semantics then Some(semantics[i]) else None
  {
    if overrides != [] {
      var before, last := overrides[..|overrides| - 1], overrides[|overrides| - 1];
      assert forall o :: o in overrides <==> o in before || o == last;
      SemanticIs(semantics, before, i);
    }
  }

  predicate HoldsDates(d: Detected, overrides: seq<Override>, i: nat) {
    (exists o :: o in overrides && o.index == i && o.semantic == Some(Date)) ||
    (!IsOverridden(overrides, i) && i in d.semantics && d.semantics[i] == Date)
  }

  /** A prepared table is as wide as the wider of the declared and the detected one, keeps every
      column that is not taken whole, and treats as dates those that are said or found to be. */
  lemma PreparedHolds(settings: Settings, d: Detected)
    requires |d.plan| == COLUMN_COUNT && CanPrepare(settings, d) && InKeyOrder(settings.overrides)
    ensures var table := Prepared(settings, d);
      && table.width >= settings.sourceWidth && table.width >= d.width
      && (table.width == settings.sourceWidth || table.width == d.width)
      && (forall i: nat :: i in table.extra <==> i < table.width && Cell(i) !in table.mapping)
      && (forall i: nat :: i in table.dates <==> i in table.extra && HoldsDates(d, settings.overrides, i))
  {
    hide FinalMapping, SemanticAt;
    var table := Prepared(settings, d);
    UnmappedMembers(table.width, table.mapping);
    forall i: nat ensures SemanticAt(d.semantics, settings.overrides, i) == Some(Date) <==>
      HoldsDates(d, settings.overrides, i)
    {
      SemanticIs(d.semantics, settings.overrides, i);
    }
  }

  /** The records of some data rows: one per row that is not blank everywhere. */
  function RecordsOf<D>(c: Cleaner<D>, table: Table, rows: seq<seq<D>>): seq<ImportRecord>
    requires IsTable(table)
  {
    if rows == [] then []
    else
      var record := RecordOf(c, table, rows[|rows| - 1]);
      RecordsOf(c, table, rows[..|rows| - 1]) + (if record.Some? then [record.value] else [])
  }

  function SourceCells<D>(rows: seq<seq<D>>): nat {
    if rows == [] then 0 else SourceCells(rows[..|rows| - 1]) + |rows[|rows| - 1]|
  }

  predicate IsBlankSheet<D>(c: Cleaner<D>, rows: seq<seq<D>>) {
    forall i, j :: 0 <= i < |rows| && 0 <= j < |rows[i]| ==> !c.hasValue(rows[i][j])
  }

  predicate FitsLimits<D>(rows: seq<seq<D>>) {
    (forall i :: 0 <= i < |rows| ==> |rows[i]| <= MAX_SOURCE_COLUMNS) && SourceCells(rows) <= MAX_SOURCE_CELLS
  }

  /** A sheet with nothing to detect: too short to fill the buffer and blank throughout. */
  predicate IsSkipped<D>(rules: Rules<D>, rows: seq<seq<D>>) {
    |rows| < DETECTION_BUFFER_ROWS && IsBlankSheet(rules.cleaner, rows)
  }

  function DetectedIn<D>(rules: Rules<D>, rows: seq<seq<D>>): Option<Detected> {
    rules.detect(UpTo(rows, DETECTION_BUFFER_ROWS))
  }

  predicate CanImport<D>(rules: Rules<D>, settings: Settings, rows: seq<seq<D>>) {
    DetectedIn(rules, rows).Some? && CanPrepare(settings, DetectedIn(rules, rows).value)
  }

  /** Whether a sheet can be imported at all. */
  predicate Importable<D>(rules: Rules<D>, settings: Settings, rows: seq<seq<D>>) {
    FitsLimits(rows) &&
    (IsSkipped(rules, rows) || CanImport(rules, settings, rows))
  }

  /** The records an importable sheet should hand to the database: those of every row after
      the detected header, in order. */
  ghost function Expected<D(!new)>(rules: Rules<D>, settings: Settings, rows: seq<seq<D>>): seq<ImportRecord>
    requires IsDetector(rules) && Importable(rules, settings, rows)
  {
    if IsSkipped(rules, rows) then []
    else
      var d := DetectedIn(rules, rows).value;
      RecordsOf(rules.cleaner, Prepared(settings, d), rows[d.headerIndex + 1..])
  }

  /** No record of a sheet with anything in it is skipped: an importable one hands over those of
      all the rows after its header. */
  lemma NothingIsSkipped<D(!new)>(rules: Rules<D>, settings: Settings, rows: seq<seq<D>>, i: nat, j: nat)
    requires IsDetector(rules) && Importable(rules, settings, rows)
    requires i < |rows| && j < |rows[i]| && rules.cleaner.hasValue(rows[i][j])
    ensures DetectedIn(rules, rows).Some? && CanPrepare(settings, DetectedIn(rules, rows).value)
    ensures var d := DetectedIn(rules, rows).value;
      Expected(rules, settings, rows) == RecordsOf(rules.cleaner, Prepared(settings, d), rows[d.headerIndex + 1..])
  {
    hide RecordsOf, CanPrepare, Prepared;
    assert !IsBlankSheet(rules.cleaner, rows);
  }

  ghost function NonBlankColumns<D>(c: Cleaner<D>, row: seq<D>, width: nat): set<nat> {
    set col: nat | col < width && col < |row| && c.hasValue(row[col])
  }

  /** The counter counts the non-blank cells of a row among the table's columns. */
  lemma {:induction false} NonBlankCellsAre<D>(c: Cleaner<D>, row: seq<D>, width: nat)
    ensures NonBlankCells(c, row, width) == |NonBlankColumns(c, row, width)|
  {
    if width == 0 {
      assert NonBlankColumns(c, row, width) == {};
    } else {
      NonBlankCellsAre(c, row, width - 1);
      var before := NonBlankColumns(c, row, width - 1);
      var here: set<nat> := if width - 1 < |row| && c.hasValue(row[width - 1]) then {width - 1} else {};
      assert NonBlankColumns(c, row, width) == before + here && before !! here;
    }
  }

  function NonBlankCells<D>(c: Cleaner<D>, row: seq<D>, width: nat): (n: nat)
    ensures n <= width
  {
    if width == 0 then 0
    else NonBlankCells(c, row, width - 1) + (if width - 1 < |row| && c.hasValue(row[width - 1]) then 1 else 0)
  }

  // ---------- the database and the sink ----------

  /** The stored records and the hashes of imported files; `saved` is what a rollback of the
      open file transaction restores. */
  class Database {
    var records: seq<ImportRecord>
    var saved: seq<ImportRecord>
    var log: set<string>

    constructor (records: seq<ImportRecord>)
      ensures this.records == records && log == {}
    {
      this.records, saved, log := records, [], {};
    }

    method AddImportLog(hash: string)
      modifies this`log
      ensures log == old(log) + {hash}
    {
      log := log + {hash};
    }

    method BeginImportFile()
      modifies this`saved
      ensures saved == records
    {
      saved := records;
    }

    method RollbackImportFile()
      modifies this`records
      ensures records == saved
    {
      records := saved;
    }
  }

  /** `cancels` and `fails` are what each poll of the cancel flag and each insert will see, and
      `schemaFails` what the registration of the table's schema will. */
  class Sink<D(!new)> {
    const db: Database
    const rules: Rules<D>
    const settings: Settings
    const cancels: nat -> bool
    const fails: nat -> bool
    const schemaFails: bool
    var polls: nat
    var inserts: nat
    var cancelled: bool
    var databaseFailed: bool
    var cellsSeen: nat
    var rowsSeen: nat
    var table: Option<Table>
    var scanned: seq<seq<D>>
    var batch: seq<ImportRecord>
    var totalRows: nat
    var nonEmptyCells: nat
    var emptyCells: nat
    ghost const base: seq<ImportRecord>

    constructor (db: Database, rules: Rules<D>, settings: Settings, cancels: nat -> bool, fails: nat -> bool,
                 schemaFails: bool)
      ensures this.db == db && this.rules == rules && this.settings == settings && base == db.records
      ensures this.cancels == cancels && this.fails == fails && this.schemaFails == schemaFails
      ensures !cancelled && !databaseFailed && table == None && scanned == [] && batch == []
      ensures cellsSeen == 0 && rowsSeen == 0 && totalRows == 0 && nonEmptyCells == 0 && emptyCells == 0
    {
      this.db, this.rules, this.settings, this.cancels, this.fails := db, rules, settings, cancels, fails;
      this.schemaFails := schemaFails;
      polls, inserts, cancelled, databaseFailed := 0, 0, false, false;
      cellsSeen, rowsSeen, table, scanned, batch := 0, 0, None, [], [];
      totalRows, nonEmptyCells, emptyCells := 0, 0, 0;
      base := db.records;
    }

    /** The cancel flag stays clear and every database call succeeds. */
    ghost predicate IsCalm() {
      (forall i :: !cancels(i)) && (forall i :: !fails(i)) && !schemaFails
    }

    /** Unless the import was cancelled or the database failed, everything handed over or
        batched is exactly the records of the data rows so far. */
    ghost predicate HasTaken(done: seq<seq<D>>)
      reads this, db
    {
      && table.Some? && IsTable(table.value)
      && (!cancelled && !databaseFailed ==> db.records + batch == base + RecordsOf(rules.cleaner, table.value, done))
    }

    /** Rows with a record are counted, and each contributes every source column once, as
        non-empty or as empty. */
    predicate HasCounted(done: seq<seq<D>>)
      reads this
    {
      && table.Some? && IsTable(table.value)
      && nonEmptyCells + emptyCells == CellTotal(table.value.width, totalRows)
      && (!cancelled ==> totalRows == |RecordsOf(rules.cleaner, table.value, done)|)
    }

    method StopIfCancelled() returns (stop: bool)
      modifies this`polls, this`cancelled, this`batch
      ensures stop ==> cancelled && batch == []
      ensures !stop ==> cancelled == old(cancelled) && batch == old(batch)
      ensures IsCalm() ==> cancelled == old(cancelled) && databaseFailed == old(databaseFailed)
    {
      stop := cancels(polls);
      polls := polls + 1;
      if stop {
        cancelled := true;
        batch := [];
      }
    }

    method FlushBatch() returns (result: Result<()>)
      modifies this`polls, this`cancelled, this`batch, this`inserts, this`databaseFailed, db`records
      ensures databaseFailed <==> old(databaseFailed) || result.Err?
      ensures old(cancelled) ==> cancelled
      ensures !cancelled && result.Ok? ==> db.records == old(db.records + batch)
      ensures result.Ok? ==> batch == []
      ensures IsCalm() ==> cancelled == old(cancelled) && databaseFailed == old(databaseFailed)
    {
      if batch == [] {
        assert db.records + batch == db.records;
        return Ok(());
      }
      var stop := StopIfCancelled();
      if stop {
        return Ok(());
      }
      inserts := inserts + 1;
      if fails(inserts - 1) {
        databaseFailed := true;
        return Err("insert failed");
      }
      db.records := db.records + batch;
      batch := [];
      result := Ok(());
    }

    method CountQualityCells(row: seq<D>)
      requires table.Some?
      modifies this`nonEmptyCells, this`emptyCells
      ensures var n := NonBlankCells(rules.cleaner, row, table.value.width);
        && nonEmptyCells == old(nonEmptyCells) + n
        && emptyCells == old(emptyCells) + (table.value.width - n)
    {
      var col := 0;
      while col < table.value.width
        invariant 0 <= col <= table.value.width
        invariant var n := NonBlankCells(rules.cleaner, row, col);
          nonEmptyCells == old(nonEmptyCells) + n && emptyCells == old(emptyCells) + (col - n)
      {
        if col < |row| && rules.cleaner.hasValue(row[col]) {
          nonEmptyCells := nonEmptyCells + 1;
        } else {
          emptyCells := emptyCells + 1;
        }
        col := col + 1;
      }
    }

    /** Batches one record, flushing and polling when the batch is full. */
    method Take(record: ImportRecord, ghost done: seq<seq<D>>, ghost taken: seq<seq<D>>) returns (result: Result<bool>)
      requires HasTaken(done) && |batch| < BATCH_SIZE
      requires RecordsOf(rules.cleaner, table.value, taken) == RecordsOf(rules.cleaner, table.value, done) + [record]
      modifies this`polls, this`cancelled, this`batch, this`inserts, this`databaseFailed, db`records
      ensures result.Ok? ==> HasTaken(taken)
      ensures result == Ok(false) ==> cancelled
      ensures result.Ok? ==> |batch| < BATCH_SIZE
      ensures databaseFailed <==> old(databaseFailed) || result.Err?
      ensures old(cancelled) ==> cancelled
      ensures IsCalm() ==> cancelled == old(cancelled) && databaseFailed == old(databaseFailed)
    {
      hide RecordsOf;
      Associative(db.records, batch, [record]);
      Associative(base, RecordsOf(rules.cleaner, table.value, done), [record]);
      batch := batch + [record];
      if |batch| < BATCH_SIZE {
        return Ok(true);
      }
      var flushed := FlushBatch();
      if flushed.Err? {
        return Err(flushed.error);
      }
      assert db.records + [] == db.records;
      var stop := StopIfCancelled();
      result := Ok(!stop);
    }

    method DataRow(row: seq<D>, ghost done: seq<seq<D>>) returns (result: Result<bool>)
      requires HasTaken(done) && HasCounted(done) && |batch| < BATCH_SIZE
      modifies this`polls, this`cancelled, this`batch, this`inserts, this`databaseFailed, this`totalRows,
        this`nonEmptyCells, this`emptyCells, db`records
      ensures result.Ok? ==> HasTaken(done + [row]) && HasCounted(done + [row])
      ensures result == Ok(false) ==> cancelled
      ensures result.Ok? ==> |batch| < BATCH_SIZE
      ensures databaseFailed <==> old(databaseFailed) || result.Err?
      ensures old(cancelled) ==> cancelled
      ensures IsCalm() ==> cancelled == old(cancelled) && databaseFailed == old(databaseFailed)
    {
      hide RecordsOf, RecordOf;
      var stop := StopIfCancelled();
      if stop {
        return Ok(false);
      }
      RecordsStep(rules.cleaner, table.value, done, row);
      var record := RecordOf(rules.cleaner, table.value, row);
      if record == None {
        return Ok(true);
      }
      CountQualityCells(row);
      OneMoreRow(table.value.width, totalRows);
      totalRows := totalRows + 1;
      result := Take(record.value, done, done + [row]);
    }

    /** What holds between two rows, `fed` being the rows so far. */
    ghost predicate Valid(fed: seq<seq<D>>)
      reads this, db
    {
      && IsDetector(rules)
      && rowsSeen == |fed| && cellsSeen == SourceCells(fed) && FitsLimits(fed)
      && |batch| < BATCH_SIZE
      && (table.None? ==> IsBuffering(fed))
      && (table.Some? ==> |fed| >= DETECTION_BUFFER_ROWS && IsImporting(fed))
    }

    ghost predicate IsBuffering(fed: seq<seq<D>>)
      reads this, db
    {
      && scanned == fed && |fed| < DETECTION_BUFFER_ROWS
      && batch == [] && db.records == base && totalRows == 0 && nonEmptyCells + emptyCells == 0
    }

    ghost predicate IsImporting(fed: seq<seq<D>>)
      requires IsDetector(rules)
      reads this, db
    {
      && DetectedIn(rules, fed).Some? && CanPrepare(settings, DetectedIn(rules, fed).value)
      && table == Some(Prepared(settings, DetectedIn(rules, fed).value))
      && HasTaken(fed[DetectedIn(rules, fed).value.headerIndex + 1..])
      && HasCounted(fed[DetectedIn(rules, fed).value.headerIndex + 1..])
    }

    /** Prepares the detected table and registers its schema, or says why it cannot be imported. */
    method PrepareTable(rows: seq<seq<D>>) returns (result: Result<Detected>)
      requires IsDetector(rules)
      modifies this`table, this`databaseFailed
      ensures var can := rules.detect(rows).Some? && CanPrepare(settings, rules.detect(rows).value);
        && (result.Ok? <==> can && !schemaFails)
        && (databaseFailed <==> old(databaseFailed) || (can && schemaFails))
      ensures result.Ok? ==> rules.detect(rows) == Some(result.value) && table == Some(Prepared(settings, result.value))
      ensures IsCalm() ==> cancelled == old(cancelled) && databaseFailed == old(databaseFailed)
    {
      hide FinalMapping, Compatible, AreFixable;
      var found := rules.detect(rows);
      if found.None? {
        return Err("no header row");
      }
      var d := found.value;
      var edited := ApplySemanticOverrides(TableWidth(settings, d), d.plan, settings.overrides);
      if edited.Err? {
        return Err("incompatible overrides");
      }
      var mapping := ApplyFixedValues(edited.value, settings.fixed);
      if mapping.Err? {
        return Err("fixed values refused");
      }
      if schemaFails {
        databaseFailed := true;
        return Err("schema not registered");
      }
      table := Some(PreparedFrom(settings, d, mapping.value));
      PreparedIsFinal(settings, d, mapping.value);
      result := Ok(d);
    }

    /** Replays the buffered rows after the header. */
    method Replay(rows: seq<seq<D>>) returns (result: Result<bool>)
      requires HasTaken([]) && HasCounted([]) && |batch| < BATCH_SIZE
      modifies this`polls, this`cancelled, this`batch, this`inserts, this`databaseFailed, this`totalRows,
        this`nonEmptyCells, this`emptyCells, db`records
      ensures result.Ok? ==> HasTaken(rows) && HasCounted(rows) && |batch| < BATCH_SIZE
      ensures result == Ok(false) ==> cancelled
      ensures databaseFailed <==> old(databaseFailed) || result.Err?
      ensures old(cancelled) ==> cancelled
      ensures IsCalm() ==> cancelled == old(cancelled) && databaseFailed == old(databaseFailed)
    {
      hide RecordsOf, IsTable;
      var next := 0;
      assert rows[..0] == [];
      while next < |rows|
        invariant 0 <= next <= |rows| && |batch| < BATCH_SIZE
        invariant HasTaken(rows[..next]) && HasCounted(rows[..next])
        invariant databaseFailed == old(databaseFailed) && (old(cancelled) ==> cancelled)
        invariant IsCalm() ==> cancelled == old(cancelled)
      {
        assert rows[..next + 1] == rows[..next] + [rows[next]];
        var taken := DataRow(rows[next], rows[..next]);
        if taken.Err? {
          return taken;
        }
        if !taken.value {
          return Ok(false);
        }
        next := next + 1;
      }
      assert rows[..next] == rows;
      result := Ok(true);
    }

    /** Detects the header among the buffered rows and replays the ones after it. */
    method StartDetectedImport(ghost fed: seq<seq<D>>) returns (result: Result<bool>)
      requires IsDetector(rules) && table.None? && scanned == fed && |fed| <= DETECTION_BUFFER_ROWS
      requires batch == [] && db.records == base && totalRows == 0 && nonEmptyCells + emptyCells == 0
      modifies this, db`records
      ensures result.Ok? ==> IsImporting(fed) && |batch| < BATCH_SIZE
      ensures result == Ok(false) ==> cancelled
      ensures result.Err? ==> databaseFailed || !CanImport(rules, settings, fed)
      ensures schemaFails && CanImport(rules, settings, fed) ==> result.Err?
      ensures databaseFailed ==> old(databaseFailed) || result.Err?
      ensures old(databaseFailed) ==> databaseFailed
      ensures old(cancelled) ==> cancelled
      ensures rowsSeen == old(rowsSeen) && cellsSeen == old(cellsSeen)
      ensures IsCalm() ==> cancelled == old(cancelled) && databaseFailed == old(databaseFailed)
    {
      hide RecordsOf, IsTable, Prepared, CanPrepare, CellTotal;
      var rows := scanned;
      scanned := [];
      var prepared := PrepareTable(rows);
      if prepared.Err? {
        return Err(prepared.error);
      }
      NothingTaken(rules.cleaner, table.value);
      assert db.records + batch == base + [];
      result := Replay(rows[prepared.value.headerIndex + 1..]);
    }

    /** One source row: checked against the limits, then buffered or imported. */
    method Row(row: seq<D>, ghost fed: seq<seq<D>>) returns (result: Result<bool>)
      requires Valid(fed)
      modifies this, db`records
      ensures result.Ok? ==> Valid(fed + [row])
      ensures result == Ok(false) ==> cancelled && table.Some?
      ensures result.Err? && !databaseFailed && FitsLimits(fed + [row]) ==>
        |fed| + 1 == DETECTION_BUFFER_ROWS && !CanImport(rules, settings, fed + [row])
      ensures databaseFailed ==> old(databaseFailed) || result.Err?
      ensures old(databaseFailed) ==> databaseFailed
      ensures old(cancelled) ==> cancelled
      ensures IsCalm() ==> cancelled == old(cancelled) && databaseFailed == old(databaseFailed)
    {
      hide SourceCells, CanPrepare, Prepared, IsDetector, RecordsOf, IsTable;
      CellsStep(fed, row);
      if |row| > MAX_SOURCE_COLUMNS {
        assert (fed + [row])[|fed|] == row;
        return Err("too many columns");
      }
      if |row| > MAX_SOURCE_CELLS - cellsSeen {
        return Err("too many cells");
      }
      cellsSeen := cellsSeen + |row|;
      rowsSeen := rowsSeen + 1;
      if table.None? {
        scanned := scanned + [row];
        if |scanned| >= DETECTION_BUFFER_ROWS {
          result := StartDetectedImport(fed + [row]);
        } else {
          result := Ok(true);
        }
      } else {
        DetectionStays(rules, fed, row);
        ghost var from := DetectedIn(rules, fed).value.headerIndex + 1;
        HeaderIsEarly(rules, fed);
        assert (fed + [row])[from..] == fed[from..] + [row];
        result := DataRow(row, fed[from..]);
      }
    }

    /** The end of a sheet: a short sheet is imported now, and the last batch is flushed. */
    method Finish(ghost fed: seq<seq<D>>) returns (result: Result<()>)
      requires Valid(fed)
      modifies this, db`records
      ensures result.Ok? && !cancelled && !databaseFailed ==>
        Importable(rules, settings, fed) && db.records == base + Expected(rules, settings, fed) &&
        totalRows == |Expected(rules, settings, fed)|
      ensures result.Ok? && !cancelled ==> (table.Some? <==> !IsSkipped(rules, fed))
      ensures result.Err? ==> databaseFailed || !Importable(rules, settings, fed)
      ensures databaseFailed ==> old(databaseFailed) || result.Err?
      ensures old(cancelled) ==> cancelled
      ensures IsCalm() ==> cancelled == old(cancelled) && databaseFailed == old(databaseFailed)
    {
      hide SourceCells, CanPrepare, Prepared, RecordsOf, IsTable, FitsLimits;
      var stop := StopIfCancelled();
      if stop {
        return Ok(());
      }
      if table.None? {
        var blank := IsBlankSheet(rules.cleaner, scanned);
        if blank {
          assert db.records == base + [];
          return Ok(());
        }
        var started := StartDetectedImport(fed);
        if started.Err? {
          return Err(started.error);
        }
      }
      stop := StopIfCancelled();
      if stop {
        return Ok(());
      }
      result := FlushBatch();
    }
  }

  lemma CellsStep<D>(fed: seq<seq<D>>, row: seq<D>)
    ensures SourceCells(fed + [row]) == SourceCells(fed) + |row|
  {
    assert (fed + [row])[..|fed|] == fed;
  }

  /** Once the buffer is full, later rows no longer change what is detected. */
  lemma DetectionStays<D>(rules: Rules<D>, fed: seq<seq<D>>, row: seq<D>)
    requires |fed| >= DETECTION_BUFFER_ROWS
    ensures DetectedIn(rules, fed + [row]) == DetectedIn(rules, fed)
  {
    assert UpTo(fed + [row], DETECTION_BUFFER_ROWS) == UpTo(fed, DETECTION_BUFFER_ROWS);
  }

  lemma HeaderIsEarly<D(!new)>(rules: Rules<D>, rows: seq<seq<D>>)
    requires IsDetector(rules) && DetectedIn(rules, rows).Some?
    ensures DetectedIn(rules, rows).value.headerIndex < |rows|
  {
  }

  /** Source columns times counted rows. */
  function CellTotal(columns: nat, rows: nat): nat {
    columns * rows
  }

  lemma OneMoreRow(columns: nat, rows: nat)
    ensures CellTotal(columns, rows + 1) == CellTotal(columns, rows) + columns
  {
  }

  lemma RecordsStep<D>(c: Cleaner<D>, table: Table, done: seq<seq<D>>, row: seq<D>)
    requires IsTable(table)
    ensures var record := RecordOf(c, table, row);
      RecordsOf(c, table, done + [row]) ==
        if record.Some? then RecordsOf(c, table, done) + [record.value] else RecordsOf(c, table, done)
  {
    hide RecordOf;
    assert (done + [row])[..|done|] == done;
    assert RecordsOf(c, table, done) + [] == RecordsOf(c, table, done);
  }

  function PreparedFrom(settings: Settings, d: Detected, mapping: seq<ColSrc>): Table {
    var width := TableWidth(settings, d);
    var extra := Unmapped(width, mapping);
    Table(width, mapping, extra, set i <- extra | SemanticAt(d.semantics, settings.overrides, i) == Some(Date))
  }

  lemma PreparedIsFinal(settings: Settings, d: Detected, mapping: seq<ColSrc>)
    requires |d.plan| == COLUMN_COUNT && CanPrepare(settings, d)
    requires mapping == WithFixed(WithOverrides(d.plan, settings.overrides), settings.fixed)
    ensures PreparedFrom(settings, d, mapping) == Prepared(settings, d)
  {
  }

  lemma NothingTaken<D>(c: Cleaner<D>, table: Table)
    requires IsTable(table)
    ensures RecordsOf(c, table, []) == [] && CellTotal(table.width, 0) == 0
  {
  }
}
