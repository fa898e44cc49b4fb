/** The byte stream fed to the fingerprint hash: length-prefixed parts and type-tagged
    table rows. The hash itself is taken to be injective, so the stream stands for it. */
module Fingerprint {
  import opened Basics

  newtype byte = n: int | 0 <= n < 256

  type Bytes = seq<byte>

  datatype SqlValue =
    | Null
    | Integer(i: int)
    | Real(bits: int)
    | Text(text: Bytes)
    | Blob(blob: Bytes)

  type Row = seq<SqlValue>

  /** Lengths fit the 64-bit prefix. */
  predicate Fits(s: Bytes) {
    |s| < U64_LIMIT
  }

  /** Integers are signed and floating-point bits unsigned 64-bit values. */
  predicate ValidValue(v: SqlValue) {
    match v
    case Null => true
    case Integer(i) => -0x8000_0000_0000_0000 <= i < 0x8000_0000_0000_0000
    case Real(bits) => 0 <= bits < U64_LIMIT
    case Text(s) => Fits(s)
    case Blob(s) => Fits(s)
  }

  predicate ValidRow(row: Row) {
    forall v <- row :: ValidValue(v)
  }

  ghost predicate ValidRows(rows: seq<Row>, columns: nat) {
    forall row <- rows :: |row| == columns && ValidRow(row)
  }

  // ---------- encoding ----------

  function LittleEndian(n: nat, width: nat): (s: Bytes)
    ensures |s| == width
  {
    if width == 0 then [] else [(n % 256) as byte] + LittleEndian(n / 256, width - 1)
  }

  function FromLittleEndian(s: Bytes): nat {
    if s == [] then 0 else s[0] as int + 256 * FromLittleEndian(s[1..])
  }

  /** Two's complement. */
  function IntegerBits(i: int): (bits: nat)
    requires ValidValue(Integer(i))
    ensures bits < U64_LIMIT
  {
    if i < 0 then i + U64_LIMIT else i
  }

  function SizedBytes(s: Bytes): Bytes {
    LittleEndian(|s|, 8) + s
  }

  function EncodePart(name: Bytes, value: Bytes): Bytes {
    SizedBytes(name) + SizedBytes(value)
  }

  function EncodeValue(v: SqlValue): Bytes
    requires ValidValue(v)
  {
    match v
    case Null => [0]
    case Integer(i) => [1] + LittleEndian(IntegerBits(i), 8)
    case Real(bits) => [2] + LittleEndian(bits, 8)
    case Text(s) => [3] + SizedBytes(s)
    case Blob(s) => [4] + SizedBytes(s)
  }

  /** The cells of a row from a given column on, each behind its column index. */
  function EncodeCells(row: Row, index: nat): Bytes
    requires index <= |row| && ValidRow(row)
    decreases |row| - index
  {
    if index == |row| then []
    else LittleEndian(index, 8) + (EncodeValue(row[index]) + EncodeCells(row, index + 1))
  }

  const ROW_MARK: byte := 255

  function EncodeRows(rows: seq<Row>): Bytes
    requires forall row <- rows :: ValidRow(row)
  {
    if rows == [] then []
    else [ROW_MARK] + (EncodeCells(rows[0], 0) + EncodeRows(rows[1..]))
  }

  // ---------- decoding ----------

  type Parsed<+T> = Option<(T, Bytes)>

  function ReadU64(s: Bytes): (r: Parsed<nat>)
    ensures r.Some? ==> |r.value.1| < |s|
  {
    if |s| < 8 then None else Some((FromLittleEndian(s[..8]), s[8..]))
  }

  function ReadBytes(s: Bytes): (r: Parsed<Bytes>)
    ensures r.Some? ==> |r.value.1| < |s|
  {
    match ReadU64(s)
    case None => None
    case Some((n, rest)) => if n <= |rest| then Some((rest[..n], rest[n..])) else None
  }

  function ReadPart(s: Bytes): Parsed<(Bytes, Bytes)> {
    match ReadBytes(s)
    case None => None
    case Some((name, rest)) =>
      match ReadBytes(rest)
      case None => None
      case Some((value, rest')) => Some(((name, value), rest'))
  }

  function Tagged(tag: byte, rest: Bytes): (r: Parsed<SqlValue>)
    ensures r.Some? ==> |r.value.1| <= |rest|
  {
    if tag == 0 then Some((Null, rest))
    else if tag == 1 || tag == 2 then
      match ReadU64(rest)
      case None => None
      case Some((n, rest')) =>
        Some((if tag == 2 then Real(n)
              else Integer(if n < 0x8000_0000_0000_0000 then n else n - U64_LIMIT), rest'))
    else if tag == 3 || tag == 4 then
      match ReadBytes(rest)
      case None => None
      case Some((b, rest')) => Some((if tag == 3 then Text(b) else Blob(b), rest'))
    else None
  }

  function ReadValue(s: Bytes): (r: Parsed<SqlValue>)
    ensures r.Some? ==> |r.value.1| < |s|
  {
    if s == [] then None else Tagged(s[0], s[1..])
  }

  function ReadCells(s: Bytes, index: nat, columns: nat): (r: Parsed<Row>)
    requires index <= columns
    ensures r.Some? ==> |r.value.1| <= |s|
    decreases columns - index
  {
    if index == columns then Some(([], s))
    else match ReadU64(s)
      case None => None
      case Some((n, rest)) =>
        if n != index then None
        else match ReadValue(rest)
          case None => None
          case Some((value, rest')) =>
            match ReadCells(rest', index + 1, columns)
            case None => None
            case Some((cells, rest'')) => Some(([value] + cells, rest''))
  }

  /** Rows go on as long as the row mark does. */
  function ReadRows(s: Bytes, columns: nat): Parsed<seq<Row>>
    decreases |s|
  {
    if s == [] || s[0] != ROW_MARK then Some(([], s))
    else match ReadCells(s[1..], 0, columns)
      case None => None
      case Some((row, rest)) =>
        match ReadRows(rest, columns)
        case None => None
        case Some((rows, rest')) => Some(([row] + rows, rest'))
  }

  // ---------- each reader inverts its writer ----------

  lemma Tail(head: byte, tail: Bytes)
    ensures ([head] + tail)[0] == head && ([head] + tail)[1..] == tail
  {
  }

  function Pow256(k: nat): nat {
    if k == 0 then 1 else 256 * Pow256(k - 1)
  }

  lemma {:induction false} LittleEndianInverse(n: nat, width: nat)
    requires n < Pow256(width)
    ensures FromLittleEndian(LittleEndian(n, width)) == n
  {
    if width > 0 {
      LittleEndianInverse(n / 256, width - 1);
      assert LittleEndian(n, width)[1..] == LittleEndian(n / 256, width - 1);
    }
  }

  lemma EightBytesHoldU64()
    ensures Pow256(8) == U64_LIMIT
  {
    assert Pow256(4) == 0x1_0000_0000;
  }

  lemma U64Inverse(n: nat, rest: Bytes)
    requires n < U64_LIMIT
    ensures ReadU64(LittleEndian(n, 8) + rest) == Some((n, rest))
  {
    EightBytesHoldU64();
    LittleEndianInverse(n, 8);
    var s := LittleEndian(n, 8) + rest;
    assert s[..8] == LittleEndian(n, 8) && s[8..] == rest;
  }

  lemma BytesInverse(b: Bytes, rest: Bytes)
    requires Fits(b)
    ensures ReadBytes(SizedBytes(b) + rest) == Some((b, rest))
  {
    Associative(LittleEndian(|b|, 8), b, rest);
    U64Inverse(|b|, b + rest);
    assert (b + rest)[..|b|] == b && (b + rest)[|b|..] == rest;
  }

  lemma PartInverse(name: Bytes, value: Bytes, rest: Bytes)
    requires Fits(name) && Fits(value)
    ensures ReadPart(EncodePart(name, value) + rest) == Some(((name, value), rest))
  {
    Associative(SizedBytes(name), SizedBytes(value), rest);
    BytesInverse(name, SizedBytes(value) + rest);
    BytesInverse(value, rest);
  }

  lemma TaggedBytes(tag: byte, payload: Bytes, rest: Bytes)
    ensures ReadValue([tag] + payload + rest) == Tagged(tag, payload + rest)
  {
    assert ([tag] + payload + rest)[1..] == payload + rest;
  }

  lemma ValueInverse(v: SqlValue, rest: Bytes)
    requires ValidValue(v)
    ensures ReadValue(EncodeValue(v) + rest) == Some((v, rest))
  {
    match v
    case Null =>
      TaggedBytes(0, [], rest);
      assert [0] + [] == EncodeValue(v) && [] + rest == rest;
    case Integer(i) =>
      TaggedBytes(1, LittleEndian(IntegerBits(i), 8), rest);
      U64Inverse(IntegerBits(i), rest);
    case Real(bits) =>
      TaggedBytes(2, LittleEndian(bits, 8), rest);
      U64Inverse(bits, rest);
    case Text(t) =>
      TaggedBytes(3, SizedBytes(t), rest);
      BytesInverse(t, rest);
    case Blob(b) =>
      TaggedBytes(4, SizedBytes(b), rest);
      BytesInverse(b, rest);
  }

  lemma {:induction false} CellsInverse(row: Row, index: nat, rest: Bytes)
    requires index <= |row| < U64_LIMIT && ValidRow(row)
    ensures ReadCells(EncodeCells(row, index) + rest, index, |row|) == Some((row[index..], rest))
    decreases |row| - index
  {
    hide ReadU64, ReadValue, EncodeValue, LittleEndian;
    if index == |row| {
      assert EncodeCells(row, index) + rest == rest;
    } else {
      var cells := EncodeCells(row, index + 1);
      var later := cells + rest;
      var value := EncodeValue(row[index]) + later;
      Associative(LittleEndian(index, 8), EncodeValue(row[index]) + cells, rest);
      Associative(EncodeValue(row[index]), cells, rest);
      U64Inverse(index, value);
      ValueInverse(row[index], later);
      CellsInverse(row, index + 1, rest);
      assert row[index..] == [row[index]] + row[index + 1..];
    }
  }

  lemma TailRows(rows: seq<Row>, columns: nat)
    requires rows != [] && ValidRows(rows, columns)
    ensures |rows[0]| == columns && ValidRow(rows[0]) && ValidRows(rows[1..], columns)
  {
  }

  lemma ReadRowsStep(s: Bytes, columns: nat, row: Row, rows: seq<Row>, later: Bytes, rest: Bytes)
    requires s != [] && s[0] == ROW_MARK
    requires ReadCells(s[1..], 0, columns) == Some((row, later))
    requires ReadRows(later, columns) == Some((rows, rest))
    ensures ReadRows(s, columns) == Some(([row] + rows, rest))
  {
    hide ReadCells;
  }

  /** Rows end where the next byte is not the row mark. */
  lemma {:induction false} RowsInverse(rows: seq<Row>, columns: nat, rest: Bytes)
    requires columns < U64_LIMIT && ValidRows(rows, columns)
    requires rest == [] || rest[0] != ROW_MARK
    ensures ReadRows(EncodeRows(rows) + rest, columns) == Some((rows, rest))
  {
    if rows == [] {
      assert EncodeRows(rows) + rest == rest;
    } else {
      TailRows(rows, columns);
      RowsInverse(rows[1..], columns, rest);
      NextRowInverse(rows, columns, rest);
    }
  }

  lemma NextRowInverse(rows: seq<Row>, columns: nat, rest: Bytes)
    requires rows != [] && columns < U64_LIMIT && ValidRows(rows, columns) && ValidRows(rows[1..], columns)
    requires ReadRows(EncodeRows(rows[1..]) + rest, columns) == Some((rows[1..], rest))
    ensures ReadRows(EncodeRows(rows) + rest, columns) == Some((rows, rest))
  {
    TailRows(rows, columns);
    var later, all := EncodeRows(rows[1..]) + rest, EncodeRows(rows) + rest;
    FirstRowSplits(rows, rest);
    CellsInverse(rows[0], 0, later);
    WholeRows(rows);
    hide *;
    ReadRowsStep(all, columns, rows[0], rows[1..], later, rest);
  }

  lemma WholeRows(rows: seq<Row>)
    requires rows != []
    ensures rows[0][0..] == rows[0] && rows == [rows[0]] + rows[1..]
  {
  }

  lemma FirstRowSplits(rows: seq<Row>, rest: Bytes)
    requires rows != [] && forall row <- rows :: ValidRow(row)
    ensures var s := EncodeRows(rows) + rest;
            s != [] && s[0] == ROW_MARK
            && s[1..] == EncodeCells(rows[0], 0) + (EncodeRows(rows[1..]) + rest)
  {
    var cells, later := EncodeCells(rows[0], 0), EncodeRows(rows[1..]);
    Associative([ROW_MARK], cells + later, rest);
    Associative(cells, later, rest);
    Tail(ROW_MARK, cells + (later + rest));
  }

  // ---------- the source contract ----------

  /** Everything the projection depends on besides the records themselves. */
  datatype SchemaState = SchemaState(
    source: Bytes,
    recordsSchema: Bytes,
    stateSchema: Bytes,
    sourceSchemasSchema: Bytes,
    sourceColumnsSchema: Bytes,
    importSourcesSchema: Bytes,
    semanticMapping: Bytes,
    sourceSchemas: seq<Row>,
    sourceColumns: seq<Row>,
    importSources: seq<Row>,
    deleteTrigger: Bytes,
    insertTrigger: Bytes,
    updateTrigger: Bytes)
  {
    /** Row widths are the column counts of the three queries. */
    ghost predicate Valid() {
      && ValidRows(sourceSchemas, 7) && ValidRows(sourceColumns, 11) && ValidRows(importSources, 7)
      && Fits(source) && Fits(recordsSchema) && Fits(stateSchema) && Fits(sourceSchemasSchema)
      && Fits(sourceColumnsSchema) && Fits(importSourcesSchema) && Fits(semanticMapping)
      && Fits(deleteTrigger) && Fits(insertTrigger) && Fits(updateTrigger)
    }
  }

  /** The names under which the parts are hashed, and the two version texts. */
  datatype Labels = Labels(header: seq<Bytes>, tableState: Bytes, tables: seq<Bytes>, triggers: seq<Bytes>,
                           projectionVersion: Bytes, trackingVersion: Bytes)
  {
    /** Short names keep the first byte of a length prefix away from the row mark. */
    ghost predicate Valid() {
      && |header| == 11 && |tables| == 3 && |triggers| == 3
      && |tableState| < 255
      && (forall b <- header + tables + triggers :: |b| < 255)
      && Fits(projectionVersion) && Fits(trackingVersion)
    }
  }

  function Ascii(s: string): (b: Bytes)
    ensures |b| == |s|
  {
    seq(|s|, i requires 0 <= i < |s| => (s[i] as int % 128) as byte)
  }

  function ContractLabels(): Labels {
    Labels([Ascii("projection_schema"), Ascii("tracking_schema"), Ascii("source"), Ascii("generation"),
            Ascii("dirty"), Ascii("records_schema"), Ascii("state_schema"), Ascii("source_schemas_schema"),
            Ascii("source_columns_schema"), Ascii("import_sources_schema"), Ascii("semantic_mapping")],
           Ascii("table_state"),
           [Ascii("source_schemas"), Ascii("source_columns"), Ascii("import_sources")],
           [Ascii("base_search_olap_records_delete"), Ascii("base_search_olap_records_insert"),
            Ascii("base_search_olap_records_update")],
           Ascii("8"), Ascii("1"))
  }

  lemma ContractLabelsAreValid()
    ensures ContractLabels().Valid()
  {
  }

  function DirtyText(dirty: bool): Bytes {
    if dirty then [49] else [48]
  }

  function HeaderValues(l: Labels, s: SchemaState, generation: Bytes, dirty: bool): (values: seq<Bytes>)
    ensures |values| == 11
  {
    [l.projectionVersion, l.trackingVersion, s.source, generation, DirtyText(dirty), s.recordsSchema,
     s.stateSchema, s.sourceSchemasSchema, s.sourceColumnsSchema, s.importSourcesSchema, s.semanticMapping]
  }

  function TriggerValues(s: SchemaState): (values: seq<Bytes>)
    ensures |values| == 3
  {
    [s.deleteTrigger, s.insertTrigger, s.updateTrigger]
  }

  function EncodeParts(names: seq<Bytes>, values: seq<Bytes>): Bytes
    requires |names| == |values|
  {
    if names == [] then []
    else EncodePart(names[0], values[0]) + EncodeParts(names[1..], values[1..])
  }

  function EncodeTable(tableState: Bytes, table: Bytes, rows: seq<Row>): Bytes
    requires forall row <- rows :: ValidRow(row)
  {
    EncodePart(tableState, table) + EncodeRows(rows)
  }

  ghost function EncodeTables(l: Labels, s: SchemaState): Bytes
    requires l.Valid() && s.Valid()
  {
    EncodeTable(l.tableState, l.tables[0], s.sourceSchemas)
    + (EncodeTable(l.tableState, l.tables[1], s.sourceColumns)
       + EncodeTable(l.tableState, l.tables[2], s.importSources))
  }

  /** The stream in the order `source_contract` feeds it. */
  ghost function Stream(l: Labels, s: SchemaState, generation: Bytes, dirty: bool): Bytes
    requires l.Valid() && s.Valid()
  {
    EncodeParts(l.header, HeaderValues(l, s, generation, dirty))
    + (EncodeTables(l, s) + EncodeParts(l.triggers, TriggerValues(s)))
  }

  function ReadParts(s: Bytes, count: nat): (r: Parsed<seq<Bytes>>)
    ensures r.Some? ==> |r.value.0| == count
  {
    if count == 0 then Some(([], s))
    else match ReadPart(s)
      case None => None
      case Some((part, rest)) =>
        match ReadParts(rest, count - 1)
        case None => None
        case Some((values, rest')) => Some(([part.1] + values, rest'))
  }

  function ReadTable(s: Bytes, columns: nat): Parsed<seq<Row>> {
    match ReadPart(s)
    case None => None
    case Some((_, rest)) => ReadRows(rest, columns)
  }

  function ReadTables(s: Bytes): Parsed<(seq<Row>, seq<Row>, seq<Row>)> {
    match ReadTable(s, 7)
    case None => None
    case Some((schemas, s2)) =>
      match ReadTable(s2, 11)
      case None => None
      case Some((columns, s3)) =>
        match ReadTable(s3, 7)
        case None => None
        case Some((imports, s4)) => Some(((schemas, columns, imports), s4))
  }

  function Assemble(h: seq<Bytes>, tables: (seq<Row>, seq<Row>, seq<Row>), t: seq<Bytes>): (SchemaState, Bytes, bool)
    requires |h| == 11 && |t| == 3
  {
    (SchemaState(h[2], h[5], h[6], h[7], h[8], h[9], h[10], tables.0, tables.1, tables.2, t[0], t[1], t[2]),
     h[3], h[4] == DirtyText(true))
  }

  /** The reader of a whole stream. */
  function Decode(s: Bytes): Option<(SchemaState, Bytes, bool)> {
    match ReadParts(s, 11)
    case None => None
    case Some((h, s1)) =>
      match ReadTables(s1)
      case None => None
      case Some((tables, s2)) =>
        match ReadParts(s2, 3)
        case None => None
        case Some((t, _)) => Some(Assemble(h, tables, t))
  }

  lemma {:induction false} PartsInverse(names: seq<Bytes>, values: seq<Bytes>, rest: Bytes)
    requires |names| == |values|
    requires (forall b <- names :: Fits(b)) && forall b <- values :: Fits(b)
    ensures ReadParts(EncodeParts(names, values) + rest, |names|) == Some((values, rest))
  {
    if names == [] {
      assert EncodeParts(names, values) + rest == rest;
    } else {
      var later := EncodeParts(names[1..], values[1..]) + rest;
      assert EncodeParts(names, values) + rest == EncodePart(names[0], values[0]) + later;
      PartInverse(names[0], values[0], later);
      PartsInverse(names[1..], values[1..], rest);
      assert values == [values[0]] + values[1..];
    }
  }

  /** A part whose name is shorter than 255 bytes cannot be taken for a row. */
  lemma PartIsNotARow(name: Bytes, value: Bytes, rest: Bytes)
    requires |name| < 255
    ensures var s := EncodePart(name, value) + rest; s != [] && s[0] != ROW_MARK
  {
    assert LittleEndian(|name|, 8)[0] == (|name| % 256) as byte;
  }

  lemma TableInverse(tableState: Bytes, table: Bytes, rows: seq<Row>, columns: nat, rest: Bytes)
    requires Fits(tableState) && Fits(table)
    requires columns < U64_LIMIT && ValidRows(rows, columns)
    requires rest == [] || rest[0] != ROW_MARK
    ensures ReadTable(EncodeTable(tableState, table, rows) + rest, columns) == Some((rows, rest))
  {
    Associative(EncodePart(tableState, table), EncodeRows(rows), rest);
    PartInverse(tableState, table, EncodeRows(rows) + rest);
    RowsInverse(rows, columns, rest);
  }

  lemma TableIsNotARow(tableState: Bytes, table: Bytes, rows: seq<Row>, rest: Bytes)
    requires forall row <- rows :: ValidRow(row)
    requires |tableState| < 255
    ensures var s := EncodeTable(tableState, table, rows) + rest; s != [] && s[0] != ROW_MARK
  {
    PartIsNotARow(tableState, table, EncodeRows(rows) + rest);
    Associative(EncodePart(tableState, table), EncodeRows(rows), rest);
  }

  lemma HeaderFits(l: Labels, s: SchemaState, generation: Bytes, dirty: bool)
    requires l.Valid() && s.Valid() && Fits(generation)
    ensures forall b <- HeaderValues(l, s, generation, dirty) :: Fits(b)
    ensures forall b <- TriggerValues(s) :: Fits(b)
    ensures forall b <- l.header :: b in l.header + l.tables + l.triggers
    ensures forall b <- l.tables :: b in l.header + l.tables + l.triggers
    ensures forall b <- l.triggers :: b in l.header + l.tables + l.triggers
  {
  }

  lemma TablesInverse(l: Labels, s: SchemaState, rest: Bytes)
    requires l.Valid() && s.Valid()
    requires forall b <- l.tables :: Fits(b)
    requires rest == [] || rest[0] != ROW_MARK
    ensures ReadTables(EncodeTables(l, s) + rest)
         == Some(((s.sourceSchemas, s.sourceColumns, s.importSources), rest))
  {
    hide EncodeTable, ReadTable;
    var t1 := EncodeTable(l.tableState, l.tables[0], s.sourceSchemas);
    var t2 := EncodeTable(l.tableState, l.tables[1], s.sourceColumns);
    var t3 := EncodeTable(l.tableState, l.tables[2], s.importSources);
    Associative(t1, t2 + t3, rest);
    Associative(t2, t3, rest);
    TableIsNotARow(l.tableState, l.tables[2], s.importSources, rest);
    TableIsNotARow(l.tableState, l.tables[1], s.sourceColumns, t3 + rest);
    TableInverse(l.tableState, l.tables[0], s.sourceSchemas, 7, t2 + (t3 + rest));
    TableInverse(l.tableState, l.tables[1], s.sourceColumns, 11, t3 + rest);
    TableInverse(l.tableState, l.tables[2], s.importSources, 7, rest);
  }

  lemma TriggersAreNotARow(l: Labels, triggers: seq<Bytes>)
    requires l.Valid() && |triggers| == 3
    requires forall b <- l.triggers :: b in l.header + l.tables + l.triggers
    ensures var s := EncodeParts(l.triggers, triggers); s != [] && s[0] != ROW_MARK
  {
    PartIsNotARow(l.triggers[0], triggers[0], EncodeParts(l.triggers[1..], triggers[1..]));
  }

  lemma AssembleInverse(l: Labels, s: SchemaState, generation: Bytes, dirty: bool)
    ensures Assemble(HeaderValues(l, s, generation, dirty),
                     (s.sourceSchemas, s.sourceColumns, s.importSources), TriggerValues(s))
         == (s, generation, dirty)
  {
    assert DirtyText(true)[0] != DirtyText(false)[0];
  }

  /** The stream is uniquely decodable. */
  lemma DecodeInvertsStream(l: Labels, s: SchemaState, generation: Bytes, dirty: bool)
    requires l.Valid() && s.Valid() && Fits(generation)
    ensures Decode(Stream(l, s, generation, dirty)) == Some((s, generation, dirty))
  {
    hide EncodeParts, ReadParts, EncodeTables, ReadTables, Assemble;
    HeaderFits(l, s, generation, dirty);
    var header, triggers := HeaderValues(l, s, generation, dirty), TriggerValues(s);
    var end := EncodeParts(l.triggers, triggers);
    TriggersAreNotARow(l, triggers);
    PartsInverse(l.header, header, EncodeTables(l, s) + end);
    TablesInverse(l, s, end);
    PartsInverse(l.triggers, triggers, []);
    assert end + [] == end;
    AssembleInverse(l, s, generation, dirty);
  }

  /** The fingerprint of a source in a given generation. */
  ghost function FingerprintOf(s: SchemaState, generation: Bytes, dirty: bool): Bytes
    requires s.Valid()
  {
    ContractLabelsAreValid();
    Stream(ContractLabels(), s, generation, dirty)
  }

  /** Equal fingerprints mean equal schema state, generation and dirty mark. */
  lemma FingerprintIsInjective(s: SchemaState, g: Bytes, d: bool, s': SchemaState, g': Bytes, d': bool)
    requires s.Valid() && s'.Valid() && Fits(g) && Fits(g')
    requires FingerprintOf(s, g, d) == FingerprintOf(s', g', d')
    ensures s == s' && g == g' && d == d'
  {
    hide Stream, Decode, ContractLabels;
    ContractLabelsAreValid();
    DecodeInvertsStream(ContractLabels(), s, g, d);
    DecodeInvertsStream(ContractLabels(), s', g', d');
  }

  // ---------- the hasher as it is driven ----------

  /** A hasher remembers the bytes it was fed. */
  class Hasher {
    var fed: Bytes

    constructor ()
      ensures fed == []
    {
      fed := [];
    }

    method Update(bytes: Bytes)
      modifies this
      ensures fed == old(fed) + bytes
    {
      fed := fed + bytes;
    }

    method HashSized(bytes: Bytes)
      modifies this
      ensures fed == old(fed) + SizedBytes(bytes)
    {
      Update(LittleEndian(|bytes|, 8));
      Update(bytes);
      Associative(old(fed), LittleEndian(|bytes|, 8), bytes);
    }

    method HashPart(name: Bytes, value: Bytes)
      modifies this
      ensures fed == old(fed) + EncodePart(name, value)
    {
      HashSized(name);
      HashSized(value);
      Associative(old(fed), SizedBytes(name), SizedBytes(value));
    }

    method HashTagged(tag: byte, payload: Bytes)
      modifies this
      ensures fed == old(fed) + ([tag] + payload)
    {
      Update([tag]);
      Update(payload);
      Associative(old(fed), [tag], payload);
    }

    method HashValue(v: SqlValue)
      requires ValidValue(v)
      modifies this
      ensures fed == old(fed) + EncodeValue(v)
    {
      match v
      case Null => Update([0]);
      case Integer(i) => HashTagged(1, LittleEndian(IntegerBits(i), 8));
      case Real(bits) => HashTagged(2, LittleEndian(bits, 8));
      case Text(t) => HashTagged(3, LittleEndian(|t|, 8)); Update(t);
        Associative(old(fed), [3] + LittleEndian(|t|, 8), t);
        Associative([3], LittleEndian(|t|, 8), t);
      case Blob(b) => HashTagged(4, LittleEndian(|b|, 8)); Update(b);
        Associative(old(fed), [4] + LittleEndian(|b|, 8), b);
        Associative([4], LittleEndian(|b|, 8), b);
    }

    /** The cells of one row, each behind its index. */
    method HashCells(row: Row)
      requires ValidRow(row)
      modifies this
      ensures fed == old(fed) + EncodeCells(row, 0)
    {
      var index := 0;
      while index < |row|
        invariant 0 <= index <= |row|
        invariant fed + EncodeCells(row, index) == old(fed) + EncodeCells(row, 0)
      {
        ghost var before, later := fed, EncodeCells(row, index + 1);
        ghost var number, value := LittleEndian(index, 8), EncodeValue(row[index]);
        Update(LittleEndian(index, 8));
        HashValue(row[index]);
        Associative(before, number, value);
        Associative(before, number + value, later);
        Associative(number, value, later);
        index := index + 1;
      }
    }

    /** One table: its name, then each row's mark and cells. */
    method HashQueryRows(tableState: Bytes, table: Bytes, rows: seq<Row>)
      requires forall row <- rows :: ValidRow(row)
      modifies this
      ensures fed == old(fed) + EncodeTable(tableState, table, rows)
    {
      hide EncodeCells, EncodePart, EncodeRows;
      HashPart(tableState, table);
      Associative(old(fed), EncodePart(tableState, table), EncodeRows(rows));
      assert rows[0..] == rows;
      var i := 0;
      while i < |rows|
        invariant 0 <= i <= |rows|
        invariant fed + EncodeRows(rows[i..]) == old(fed) + EncodeTable(tableState, table, rows)
      {
        ghost var before, cells := fed, EncodeCells(rows[i], 0);
        Update([ROW_MARK]);
        HashCells(rows[i]);
        NextRow(before, rows, i);
        i := i + 1;
      }
      assert rows[i..] == [];
      NoMoreRows(fed);
    }
  }

  lemma NextRow(before: Bytes, rows: seq<Row>, i: nat)
    requires i < |rows| && forall row <- rows :: ValidRow(row)
    ensures before + [ROW_MARK] + EncodeCells(rows[i], 0) + EncodeRows(rows[i + 1..]) == before + EncodeRows(rows[i..])
  {
    var cells, later := EncodeCells(rows[i], 0), EncodeRows(rows[i + 1..]);
    assert rows[i..][1..] == rows[i + 1..];
    assert EncodeRows(rows[i..]) == [ROW_MARK] + (cells + later);
    Associative(before, [ROW_MARK], cells);
    Associative(before, [ROW_MARK] + cells, later);
    Associative([ROW_MARK], cells, later);
  }

  lemma NoMoreRows(fed: Bytes)
    ensures fed + EncodeRows([]) == fed
  {
  }
}
