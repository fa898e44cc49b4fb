/** What one source row turns into under a column mapping: the stored values and the extra
    columns kept beside them. */
module RowMapping {
  import opened Basics
  import opened ColumnMapping

  /** The cell and date normalizers. */
  datatype Cleaner<!D> = Cleaner(cell: (D, bool) -> string, date: string -> string, hasValue: D -> bool)

  /** The record handed to the database; its hash and year are computed from these. */
  datatype ImportRecord = ImportRecord(values: seq<string>, extra: seq<(nat, string)>)

  /** A prepared table: its width, mapping, extra columns and which of those hold dates. */
  datatype Table = Table(width: nat, mapping: seq<ColSrc>, extra: seq<nat>, dates: set<nat>)

  predicate IsTable(t: Table) {
    |t.mapping| == COLUMN_COUNT && t.extra == Unmapped(t.width, t.mapping)
  }

  /** `row.get(pos).map(normalize_cell).unwrap_or_default()`. */
  function CleanAt<D>(c: Cleaner<D>, row: seq<D>, pos: nat, isDate: bool): string {
    if pos < |row| then c.cell(row[pos], isDate) else ""
  }

  function JoinedParts<D>(c: Cleaner<D>, row: seq<D>, parts: seq<nat>): seq<string> {
    if parts == [] then []
    else
      var text := CleanAt(c, row, parts[0], false);
      (if text == "" then [] else [text]) + JoinedParts(c, row, parts[1..])
  }

  function JoinText(parts: seq<string>, separator: string): string {
    if parts == [] then ""
    else if |parts| == 1 then parts[0]
    else parts[0] + separator + JoinText(parts[1..], separator)
  }

  function ValueAt<D>(c: Cleaner<D>, row: seq<D>, src: ColSrc, isDate: bool): string {
    match src
    case Missing => ""
    case Fixed(value) => value
    case Cell(pos) => CleanAt(c, row, pos, isDate)
    case Join(parts, separator) => JoinText(JoinedParts(c, row, parts), separator)
  }

  function RawValues<D>(c: Cleaner<D>, row: seq<D>, mapping: seq<ColSrc>): (values: seq<string>)
    ensures |values| == |mapping|
    ensures forall t :: 0 <= t < |mapping| ==> values[t] == ValueAt(c, row, mapping[t], t == DATE_COL)
  {
    seq(|mapping|, t requires 0 <= t < |mapping| => ValueAt(c, row, mapping[t], t == DATE_COL))
  }

  /** The non-blank extra columns with their values; the column's header names the pair. */
  function ExtraOf<D>(c: Cleaner<D>, row: seq<D>, extra: seq<nat>, dates: set<nat>): seq<(nat, string)> {
    if extra == [] then []
    else
      var text := CleanAt(c, row, extra[0], extra[0] in dates);
      (if text == "" then [] else [(extra[0], text)]) + ExtraOf(c, row, extra[1..], dates)
  }

  predicate AllBlank(values: seq<string>) {
    forall v <- values :: v == ""
  }

  /** A row's record, or nothing for a row that is blank everywhere. */
  function RecordOf<D>(c: Cleaner<D>, table: Table, row: seq<D>): Option<ImportRecord>
    requires IsTable(table)
  {
    var values := RawValues(c, row, table.mapping);
    var extra := ExtraOf(c, row, table.extra, table.dates);
    if AllBlank(values) && extra == [] then None
    else Some(ImportRecord(values[DATE_COL := c.date(values[DATE_COL])], extra))
  }

  lemma {:induction false} ExtraHolds<D>(c: Cleaner<D>, row: seq<D>, extra: seq<nat>, dates: set<nat>, i: nat)
    requires i in extra && CleanAt(c, row, i, i in dates) != ""
    ensures (i, CleanAt(c, row, i, i in dates)) in ExtraOf(c, row, extra, dates)
  {
    if extra[0] != i {
      ExtraHolds(c, row, extra[1..], dates, i);
    }
  }

  /** A stored value as the record holds it: dates are normalized once more. */
  function Stored<D>(c: Cleaner<D>, t: nat, value: string): string {
    if t == DATE_COL then c.date(value) else value
  }

  /** Every source cell of the table is kept: each storage column that takes it holds its value
      in the record, and when none does, the record's extra columns hold it. A cell that is not
      blank there gives its row a record. */
  lemma EveryCellIsKept<D>(c: Cleaner<D>, table: Table, row: seq<D>, i: nat)
    requires IsTable(table) && i < table.width && i < |row|
    ensures var record := RecordOf(c, table, row);
      if Consumed(table.mapping, i) then
        forall t :: 0 <= t < COLUMN_COUNT && table.mapping[t] == Cell(i) ==>
          var value := c.cell(row[i], t == DATE_COL);
          && (value != "" ==> record.Some?)
          && (record.Some? ==> record.value.values[t] == Stored(c, t, value))
      else
        var value := c.cell(row[i], i in table.dates);
        value != "" ==> record.Some? && (i, value) in record.value.extra
  {
    UnmappedMembers(table.width, table.mapping);
    var values := RawValues(c, row, table.mapping);
    if Consumed(table.mapping, i) {
      forall t | 0 <= t < COLUMN_COUNT && table.mapping[t] == Cell(i)
        ensures values[t] == c.cell(row[i], t == DATE_COL) && values[t] in values
      {
        assert values[t] == ValueAt(c, row, Cell(i), t == DATE_COL);
      }
    } else if c.cell(row[i], i in table.dates) != "" {
      ExtraHolds(c, row, table.extra, table.dates, i);
    }
  }

  /** A row has no record exactly when every storage column is left blank and so is every
      extra column. */
  lemma NoRecordWhenBlank<D>(c: Cleaner<D>, table: Table, row: seq<D>)
    requires IsTable(table)
    ensures RecordOf(c, table, row).None? <==>
      && (forall t :: 0 <= t < COLUMN_COUNT ==> ValueAt(c, row, table.mapping[t], t == DATE_COL) == "")
      && (forall i <- table.extra :: CleanAt(c, row, i, i in table.dates) == "")
  {
    hide ValueAt, CleanAt;
    var values := RawValues(c, row, table.mapping);
    var extra := ExtraOf(c, row, table.extra, table.dates);
    assert AllBlank(values) <==> forall t :: 0 <= t < COLUMN_COUNT ==> values[t] == "" by {
      forall t | 0 <= t < COLUMN_COUNT ensures values[t] in values {
      }
    }
    if i :| i in table.extra && CleanAt(c, row, i, i in table.dates) != "" {
      ExtraHolds(c, row, table.extra, table.dates, i);
    } else {
      ExtraIsBlank(c, row, table.extra, table.dates);
    }
  }

  lemma {:induction false} ExtraIsBlank<D>(c: Cleaner<D>, row: seq<D>, extra: seq<nat>, dates: set<nat>)
    requires forall i <- extra :: CleanAt(c, row, i, i in dates) == ""
    ensures ExtraOf(c, row, extra, dates) == []
  {
    if extra != [] {
      assert extra[0] in extra && forall i <- extra[1..] :: i in extra;
      ExtraIsBlank(c, row, extra[1..], dates);
    }
  }

  lemma {:induction false} NothingJoined<D>(c: Cleaner<D>, row: seq<D>, parts: seq<nat>)
    requires forall i <- parts :: CleanAt(c, row, i, false) == ""
    ensures JoinedParts(c, row, parts) == []
  {
    if parts != [] {
      assert parts[0] in parts && forall i <- parts[1..] :: i in parts;
      NothingJoined(c, row, parts[1..]);
    }
  }

  /** A row whose cells all clean to nothing has no record unless a fixed value stands in it. */
  lemma BlankRowIsSkipped<D>(c: Cleaner<D>, table: Table, row: seq<D>)
    requires IsTable(table) && forall src <- table.mapping :: !src.Fixed?
    requires forall i, isDate :: 0 <= i < |row| ==> c.cell(row[i], isDate) == ""
    ensures RecordOf(c, table, row) == None
  {
    hide RecordOf;
    NoRecordWhenBlank(c, table, row);
    forall t | 0 <= t < COLUMN_COUNT ensures ValueAt(c, row, table.mapping[t], t == DATE_COL) == "" {
      var src := table.mapping[t];
      assert src in table.mapping;
      if src.Join? {
        NothingJoined(c, row, src.parts);
      }
    }
  }

  /** What a source puts into storage column `t` of a record. */
  predicate IsHeld<D>(c: Cleaner<D>, row: seq<D>, src: ColSrc, t: nat, text: string) {
    match src
    case Missing => text == Stored(c, t, "")
    case Fixed(value) => text == Stored(c, t, value)
    case Cell(i) => text == Stored(c, t, if i < |row| then c.cell(row[i], t == DATE_COL) else "")
    case Join(parts, separator) => text == Stored(c, t, JoinText(JoinedParts(c, row, parts), separator))
  }

  /** What a row's record holds at each storage column, and that its extras are the non-blank
      extra columns with their texts, in column order. */
  lemma RecordHolds<D>(c: Cleaner<D>, table: Table, row: seq<D>)
    requires IsTable(table) && RecordOf(c, table, row).Some?
    ensures var record := RecordOf(c, table, row).value;
      && |record.values| == COLUMN_COUNT
      && (forall t :: 0 <= t < COLUMN_COUNT ==> IsHeld(c, row, table.mapping[t], t, record.values[t]))
      && (forall i, text :: (i, text) in record.extra <==>
            i in table.extra && text == CleanAt(c, row, i, i in table.dates) && text != "")
      && (forall j, k :: 0 <= j < k < |record.extra| ==> record.extra[j].0 < record.extra[k].0)
  {
    UnmappedMembers(table.width, table.mapping);
    hide JoinText, JoinedParts, CleanAt, IsHeld;
    var extra := ExtraOf(c, row, table.extra, table.dates);
    assert RecordOf(c, table, row).value.extra == extra;
    ExtraIs(c, row, table.extra, table.dates);
    forall t: nat | t < COLUMN_COUNT ensures IsHeld(c, row, table.mapping[t], t,
                                                 Stored(c, t, ValueAt(c, row, table.mapping[t], t == DATE_COL))) {
      ValueIsHeld(c, row, table.mapping[t], t);
    }
  }

  lemma ValueIsHeld<D>(c: Cleaner<D>, row: seq<D>, src: ColSrc, t: nat)
    ensures IsHeld(c, row, src, t, Stored(c, t, ValueAt(c, row, src, t == DATE_COL)))
  {
  }

  lemma {:induction false} ExtraIs<D>(c: Cleaner<D>, row: seq<D>, extra: seq<nat>, dates: set<nat>)
    requires forall j, k :: 0 <= j < k < |extra| ==> extra[j] < extra[k]
    ensures var pairs := ExtraOf(c, row, extra, dates);
      && (forall i, text :: (i, text) in pairs <==>
            i in extra && text == CleanAt(c, row, i, i in dates) && text != "")
      && (forall j, k :: 0 <= j < k < |pairs| ==> pairs[j].0 < pairs[k].0)
  {
    hide CleanAt;
    if extra != [] {
      var rest, pairs := extra[1..], ExtraOf(c, row, extra[1..], dates);
      ExtraIs(c, row, rest, dates);
      assert forall i :: i in extra <==> i == extra[0] || i in rest;
      forall k | 0 <= k < |pairs| ensures extra[0] < pairs[k].0 {
        assert (pairs[k].0, pairs[k].1) in pairs;
        assert pairs[k].0 in rest;
      }
    }
  }

  /** A joined value is its parts' non-blank texts, in order, with the separator between each
      two: joining lists of parts joins their texts. */
  lemma {:induction false} PartsConcat<D>(c: Cleaner<D>, row: seq<D>, a: seq<nat>, b: seq<nat>)
    ensures JoinedParts(c, row, a + b) == JoinedParts(c, row, a) + JoinedParts(c, row, b)
    ensures forall i: nat :: JoinedParts(c, row, [i]) ==
              if i < |row| && c.cell(row[i], false) != "" then [c.cell(row[i], false)] else []
  {
    if a == [] {
      assert a + b == b;
    } else {
      assert (a + b)[1..] == a[1..] + b;
      PartsConcat(c, row, a[1..], b);
    }
  }

  lemma {:induction false} JoinConcat(a: seq<string>, b: seq<string>, separator: string)
    requires a != [] && b != []
    ensures JoinText(a + b, separator) == JoinText(a, separator) + separator + JoinText(b, separator)
    ensures JoinText([], separator) == "" && forall x :: JoinText([x], separator) == x
  {
    assert (a + b)[1..] == a[1..] + b;
    if |a| > 1 {
      JoinConcat(a[1..], b, separator);
    } else {
      assert [] + b == b;
    }
  }

  /** Removing a source column from a storage column is reading the row with that cell blank. */
  lemma RemovingBlanksTheCell<D>(c: Cleaner<D>, row: seq<D>, src: ColSrc, index: nat, blank: D)
    requires index < |row| && c.cell(blank, false) == ""
    ensures ValueAt(c, row, RemoveSource(src, index), false) == ValueAt(c, row[index := blank], src, false)
  {
    if src.Join? {
      JoinedWithout(c, row, src.parts, index, blank);
      var rest := Without(src.parts, index);
      if |rest| == 1 {
        assert rest[1..] == [];
        var text := CleanAt(c, row, rest[0], false);
        assert JoinedParts(c, row, rest) == if text == "" then [] else [text];
      }
    }
  }

  lemma {:induction false} JoinedWithout<D>(c: Cleaner<D>, row: seq<D>, parts: seq<nat>, index: nat, blank: D)
    requires index < |row| && c.cell(blank, false) == ""
    ensures JoinedParts(c, row, Without(parts, index)) == JoinedParts(c, row[index := blank], parts)
  {
    if parts != [] {
      JoinedWithout(c, row, parts[1..], index, blank);
      var head, rest := if parts[0] == index then [] else [parts[0]], Without(parts[1..], index);
      PartsConcat(c, row, head, rest);
      assert [] + rest == rest;
    }
  }

  // ---------- cells beyond the table ----------

  lemma {:induction false} SameParts<D>(c: Cleaner<D>, a: seq<D>, b: seq<D>, parts: seq<nat>)
    requires forall i <- parts :: CleanAt(c, a, i, false) == CleanAt(c, b, i, false)
    ensures JoinedParts(c, a, parts) == JoinedParts(c, b, parts)
  {
    if parts != [] {
      assert parts[0] in parts && forall i <- parts[1..] :: i in parts;
      SameParts(c, a, b, parts[1..]);
    }
  }

  lemma {:induction false} SameExtra<D>(c: Cleaner<D>, a: seq<D>, b: seq<D>, extra: seq<nat>, dates: set<nat>)
    requires forall i <- extra :: CleanAt(c, a, i, i in dates) == CleanAt(c, b, i, i in dates)
    ensures ExtraOf(c, a, extra, dates) == ExtraOf(c, b, extra, dates)
  {
    if extra != [] {
      assert extra[0] in extra && forall i <- extra[1..] :: i in extra;
      SameExtra(c, a, b, extra[1..], dates);
    }
  }

  /** Cells beyond the table's width never reach the record: a row and its cut to the width
      give the same one. */
  lemma CellsBeyondWidthAreDropped<D>(c: Cleaner<D>, table: Table, row: seq<D>)
    requires IsTable(table) && ReadsBelow(table.mapping, table.width) && table.width <= |row|
    ensures RecordOf(c, table, row) == RecordOf(c, table, row[..table.width])
  {
    var cut := row[..table.width];
    UnmappedMembers(table.width, table.mapping);
    forall t | 0 <= t < |table.mapping|
      ensures ValueAt(c, row, table.mapping[t], t == DATE_COL) == ValueAt(c, cut, table.mapping[t], t == DATE_COL)
    {
      var src := table.mapping[t];
      assert forall i: nat :: Reads(src, i) ==> i < table.width;
      if src.Cell? {
        assert Reads(src, src.index);
      } else if src.Join? {
        forall i | i in src.parts ensures CleanAt(c, row, i, false) == CleanAt(c, cut, i, false) {
          assert Reads(src, i);
        }
        SameParts(c, row, cut, table.mapping[t].parts);
      }
    }
    assert RawValues(c, row, table.mapping) == RawValues(c, cut, table.mapping);
    SameExtra(c, row, cut, table.extra, table.dates);
  }
}
