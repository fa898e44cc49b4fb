/** Turning a stream of sheet cells into rows: the assembler the import uses, and the grid
    the preview fills from the same stream. */
module RowAssembler {
  import opened Basics

  datatype Data = Empty | Value(text: string)

  /** A cell with its sheet position. */
  datatype Cell = Cell(row: nat, col: nat, value: Data)

  function Shift(col: nat, offset: nat): nat {
    if col < offset then 0 else col - offset
  }

  function Blanks(n: nat): seq<Data> {
    seq(n, _ => Empty)
  }

  /** A row with a value written at a column, the gap before it filled with blanks. */
  function Put(cells: seq<Data>, col: nat, value: Data): seq<Data> {
    if |cells| <= col then cells + Blanks(col - |cells|) + [value] else cells[col := value]
  }

  // ---------- the assembler ----------

  datatype Assembly = Assembly(current: Option<nat>, cells: seq<Data>)

  function Pushed(a: Assembly, offset: nat, c: Cell): (Assembly, Option<seq<Data>>) {
    var continues := a.current.None? || a.current.value == c.row;
    (Assembly(Some(c.row), Put(if continues then a.cells else [], Shift(c.col, offset), c.value)),
     if continues then None else Some(a.cells))
  }

  class Assembler {
    var currentRow: Option<nat>
    const columnOffset: nat
    var cells: seq<Data>

    function View(): Assembly
      reads this
    {
      Assembly(currentRow, cells)
    }

    constructor WithColumnOffset(offset: nat)
      ensures columnOffset == offset && View() == Assembly(None, [])
    {
      columnOffset := offset;
      currentRow := None;
      cells := [];
    }

    method Push(row: nat, col: nat, value: Data) returns (finished: Option<seq<Data>>)
      modifies this
      ensures (View(), finished) == Pushed(old(View()), columnOffset, Cell(row, col, value))
    {
      finished := None;
      if currentRow.Some? && currentRow.value != row {
        finished := Some(cells);
        cells := [];
      }
      currentRow := Some(row);
      var at := Shift(col, columnOffset);
      assert cells + Blanks(0) == cells;
      if |cells| < at {
        cells := cells + Blanks(at - |cells|);
      }
      if |cells| == at {
        cells := cells + [value];
      } else {
        cells := cells[at := value];
      }
    }

    method Take() returns (last: Option<seq<Data>>)
      modifies this
      ensures last == if old(currentRow).None? then None else Some(old(cells))
      ensures old(currentRow).Some? ==> View() == Assembly(None, [])
    {
      if currentRow.None? {
        return None;
      }
      currentRow := None;
      last := Some(cells);
      cells := [];
    }
  }

  // ---------- what a stream holds ----------

  /** The cells of one sheet row, in stream order. */
  function CellsOf(stream: seq<Cell>, row: nat): seq<Cell> {
    if stream == [] then []
    else CellsOf(stream[..|stream| - 1], row) + (if stream[|stream| - 1].row == row then [stream[|stream| - 1]] else [])
  }

  /** The distinct sheet rows of a stream in row order. */
  function RowNumbers(stream: seq<Cell>): seq<nat> {
    if stream == [] then []
    else
      NextNumbers(RowNumbers(stream[..|stream| - 1]), stream[|stream| - 1].row)
  }

  function NextNumbers(numbers: seq<nat>, row: nat): seq<nat> {
    if numbers != [] && numbers[|numbers| - 1] == row then numbers else numbers + [row]
  }

  /** A row built by writing its cells one after the other. */
  function RowFrom(cells: seq<Cell>, offset: nat): seq<Data> {
    if cells == [] then []
    else
      var last := cells[|cells| - 1];
      Put(RowFrom(cells[..|cells| - 1], offset), Shift(last.col, offset), last.value)
  }

  function RowsAt(stream: seq<Cell>, numbers: seq<nat>, offset: nat): seq<seq<Data>> {
    if numbers == [] then []
    else
      RowsAt(stream, numbers[..|numbers| - 1], offset) + [RowFrom(CellsOf(stream, numbers[|numbers| - 1]), offset)]
  }

  /** One row per distinct sheet row, in row order. */
  function RowsOf(stream: seq<Cell>, offset: nat): seq<seq<Data>> {
    RowsAt(stream, RowNumbers(stream), offset)
  }

  predicate InRowOrder(stream: seq<Cell>) {
    forall i, j :: 0 <= i < j < |stream| ==> stream[i].row <= stream[j].row
  }

  /** The value last written at a shifted column, `Empty` when none was. */
  function LastAt(cells: seq<Cell>, offset: nat, col: nat): Data {
    if cells == [] then Empty
    else if Shift(cells[|cells| - 1].col, offset) == col then cells[|cells| - 1].value
    else LastAt(cells[..|cells| - 1], offset, col)
  }

  /** A row reaches its rightmost cell and holds, at each column, the last value written
      there or a blank. */
  lemma {:induction false} RowFromHolds(cells: seq<Cell>, offset: nat)
    ensures forall c <- cells :: Shift(c.col, offset) < |RowFrom(cells, offset)|
    ensures RowFrom(cells, offset) == [] ||
      exists c :: c in cells && Shift(c.col, offset) == |RowFrom(cells, offset)| - 1
    ensures forall col :: 0 <= col < |RowFrom(cells, offset)| ==>
              RowFrom(cells, offset)[col] == LastAt(cells, offset, col)
    ensures forall col :: |RowFrom(cells, offset)| <= col ==> LastAt(cells, offset, col) == Empty
  {
    if cells != [] {
      var before, last := cells[..|cells| - 1], cells[|cells| - 1];
      RowFromHolds(before, offset);
      assert forall c :: c in cells <==> c in before || c == last;
    }
  }

  // ---------- the assembler against the stream ----------

  /** The rows finished and the assembly left after a stream has been pushed. */
  function Fed(stream: seq<Cell>, offset: nat): (Assembly, seq<seq<Data>>) {
    if stream == [] then (Assembly(None, []), [])
    else
      var (before, rows) := Fed(stream[..|stream| - 1], offset);
      var (after, finished) := Pushed(before, offset, stream[|stream| - 1]);
      (after, if finished.Some? then rows + [finished.value] else rows)
  }

  function Collected(stream: seq<Cell>, offset: nat): seq<seq<Data>> {
    var (a, rows) := Fed(stream, offset);
    if a.current.Some? then rows + [a.cells] else rows
  }

  /** The loop of the sheet import: push every cell, keep what is finished, take the rest. */
  method Assemble(stream: seq<Cell>, offset: nat) returns (rows: seq<seq<Data>>)
    ensures rows == Collected(stream, offset)
    ensures InRowOrder(stream) ==> rows == RowsOf(stream, offset)
  {
    var assembler := new Assembler.WithColumnOffset(offset);
    rows := [];
    var next := 0;
    while next < |stream|
      invariant 0 <= next <= |stream|
      invariant fresh(assembler) && assembler.columnOffset == offset
      invariant (assembler.View(), rows) == Fed(stream[..next], offset)
    {
      assert stream[..next + 1][..next] == stream[..next];
      var cell := stream[next];
      var finished := assembler.Push(cell.row, cell.col, cell.value);
      if finished.Some? {
        rows := rows + [finished.value];
      }
      next := next + 1;
    }
    assert stream[..next] == stream;
    var last := assembler.Take();
    if last.Some? {
      rows := rows + [last.value];
    }
    if InRowOrder(stream) {
      CollectedIsRows(stream, offset);
    }
  }

  lemma OrderedPrefix(before: seq<Cell>, last: Cell)
    requires InRowOrder(before + [last])
    ensures InRowOrder(before) && forall c <- before :: c.row <= last.row
  {
    var all := before + [last];
    assert forall i :: 0 <= i < |before| ==> all[i] == before[i];
    assert all[|before|] == last;
  }

  lemma {:induction false} RowNumbersAscend(stream: seq<Cell>)
    requires InRowOrder(stream)
    ensures var rows := RowNumbers(stream);
      && (forall i, j :: 0 <= i < j < |rows| ==> rows[i] < rows[j])
      && (stream != [] ==> rows != [] && rows[|rows| - 1] == stream[|stream| - 1].row)
  {
    if stream != [] {
      hide InRowOrder, RowNumbers;
      var before, last := stream[..|stream| - 1], stream[|stream| - 1];
      assert stream == before + [last];
      OrderedPrefix(before, last);
      RowNumbersAscend(before);
      RowNumbersStep(before, last);
      if before == [] {
        assert RowNumbers(before) == [] by {
          NoRowNumbers();
        }
      } else {
        assert before[|before| - 1] in before;
      }
    }
  }

  lemma NoRowNumbers()
    ensures RowNumbers([]) == []
  {
  }

  /** The row numbers are the rows that have cells. */
  lemma {:induction false} RowNumberMembers(stream: seq<Cell>, n: nat)
    ensures n in RowNumbers(stream) <==> exists c :: c in stream && c.row == n
  {
    if stream != [] {
      var before, last := stream[..|stream| - 1], stream[|stream| - 1];
      RowNumberMembers(before, n);
      assert forall c :: c in stream <==> c in before || c == last;
    }
  }

  lemma RowNumbersStep(before: seq<Cell>, last: Cell)
    ensures var numbers := RowNumbers(before);
      RowNumbers(before + [last]) ==
        if numbers != [] && numbers[|numbers| - 1] == last.row then numbers else numbers + [last.row]
  {
    assert RowNumbers(before + [last]) == NextNumbers(RowNumbers(before), last.row) by {
      hide NextNumbers;
      assert (before + [last])[..|before|] == before;
    }
  }

  lemma {:induction false} NoCellsOf(stream: seq<Cell>, row: nat)
    requires forall c <- stream :: c.row != row
    ensures CellsOf(stream, row) == []
  {
    if stream != [] {
      NoCellsOf(stream[..|stream| - 1], row);
    }
  }

  lemma CellsOfStep(before: seq<Cell>, last: Cell, row: nat)
    ensures CellsOf(before + [last], row) ==
      if last.row == row then CellsOf(before, row) + [last] else CellsOf(before, row)
  {
    assert (before + [last])[..|before|] == before;
    assert CellsOf(before, row) + [] == CellsOf(before, row);
  }

  lemma RowFromStep(cells: seq<Cell>, last: Cell, offset: nat)
    ensures RowFrom(cells + [last], offset) == Put(RowFrom(cells, offset), Shift(last.col, offset), last.value)
  {
    assert (cells + [last])[..|cells|] == cells;
  }

  lemma {:induction false} OtherRowsStay(before: seq<Cell>, last: Cell, numbers: seq<nat>, offset: nat)
    requires last.row !in numbers
    ensures RowsAt(before + [last], numbers, offset) == RowsAt(before, numbers, offset)
  {
    if numbers != [] {
      hide CellsOf, RowFrom;
      var number := numbers[|numbers| - 1];
      assert number in numbers && forall n <- numbers[..|numbers| - 1] :: n in numbers;
      OtherRowsStay(before, last, numbers[..|numbers| - 1], offset);
      CellsOfStep(before, last, number);
    }
  }

  lemma LastRowIsGreatest(stream: seq<Cell>, c: Cell)
    requires InRowOrder(stream) && c in stream
    ensures c.row <= stream[|stream| - 1].row
  {
    var i :| 0 <= i < |stream| && stream[i] == c;
  }

  /** What an ordered stream's last row and the rows before it are, from its last cell. */
  lemma RowsOfStep(before: seq<Cell>, last: Cell, offset: nat)
    requires InRowOrder(before + [last]) && before != []
    ensures RowNumbers(before) != []
    ensures var numbers, all := RowNumbers(before), before + [last];
      var done, row := RowsAt(before, numbers[..|numbers| - 1], offset), before[|before| - 1].row;
      && RowsOf(before, offset) == done + [RowFrom(CellsOf(before, row), offset)]
      && RowsOf(all, offset) == if row == last.row
           then done + [Put(RowFrom(CellsOf(before, row), offset), Shift(last.col, offset), last.value)]
           else RowsOf(before, offset) + [Put([], Shift(last.col, offset), last.value)]
  {
    hide Put, Shift, InRowOrder, CellsOf, RowFrom;
    OrderedPrefix(before, last);
    RowNumbersAscend(before);
    var numbers, row := RowNumbers(before), before[|before| - 1].row;
    assert before[|before| - 1] in before;
    assert (before + [last])[..|before|] == before;
    CellsOfStep(before, last, last.row);
    RowFromStep(CellsOf(before, last.row), last, offset);
    if row == last.row {
      OtherRowsStay(before, last, numbers[..|numbers| - 1], offset);
    } else {
      OtherRowsStay(before, last, numbers, offset);
      forall c | c in before ensures c.row != last.row {
        LastRowIsGreatest(before, c);
      }
      NoCellsOf(before, last.row);
      assert RowFrom([], offset) == [] by {
        EmptyRow(offset);
      }
      assert (numbers + [last.row])[..|numbers|] == numbers;
    }
  }

  lemma EmptyRow(offset: nat)
    ensures RowFrom([], offset) == []
  {
  }

  lemma {:induction false} FedHolds(stream: seq<Cell>, offset: nat)
    requires InRowOrder(stream) && stream != []
    ensures var rows, row := RowsOf(stream, offset), stream[|stream| - 1].row;
      && rows != []
      && Fed(stream, offset) == (Assembly(Some(row), rows[|rows| - 1]), rows[..|rows| - 1])
  {
    hide Put, Shift, InRowOrder, RowsOf;
    var before, last := stream[..|stream| - 1], stream[|stream| - 1];
    assert before + [last] == stream;
    if before == [] {
      OnlyRow(last, offset);
    } else {
      OrderedPrefix(before, last);
      FedHolds(before, offset);
      RowsOfStep(before, last, offset);
    }
  }

  lemma OnlyRow(c: Cell, offset: nat)
    ensures RowsOf([c], offset) == [Put([], Shift(c.col, offset), c.value)]
  {
    hide Put, Shift;
    var numbers := [c.row];
    assert [c][..0] == [] && RowNumbers([c]) == numbers;
    assert numbers[..0] == [] && RowsAt([c], [], offset) == [];
    CellsOfStep([], c, c.row);
    RowFromStep([], c, offset);
    EmptyRow(offset);
    assert [] + [c] == [c];
  }

  /** An ordered stream is assembled into exactly one row per distinct sheet row. */
  lemma CollectedIsRows(stream: seq<Cell>, offset: nat)
    requires InRowOrder(stream)
    ensures Collected(stream, offset) == RowsOf(stream, offset)
  {
    hide InRowOrder, RowsOf, Pushed;
    if stream != [] {
      FedHolds(stream, offset);
    } else {
      NothingToCollect(offset);
    }
  }

  lemma NothingToCollect(offset: nat)
    ensures RowsOf([], offset) == []
  {
  }

  // ---------- the preview ----------

  /** The first row and column of the sheet's declared dimensions. */
  datatype Origin = Origin(row: nat, col: nat)

  /** The cells the preview reads: it stops at the first one below its window. */
  function Window(stream: seq<Cell>, origin: Origin, height: nat): seq<Cell> {
    if stream == [] || origin.row + height <= stream[0].row then []
    else [stream[0]] + Window(stream[1..], origin, height)
  }

  function RightOf(cells: seq<Cell>, col: nat): seq<Cell> {
    if cells == [] then []
    else RightOf(cells[..|cells| - 1], col) + (if cells[|cells| - 1].col >= col then [cells[|cells| - 1]] else [])
  }

  /** A grid row: the cells of that sheet row that do not lie left of the origin. */
  function GridRow(cells: seq<Cell>, origin: Origin, i: nat): seq<Data> {
    RowFrom(RightOf(CellsOf(cells, origin.row + i), origin.col), origin.col)
  }

  function Grid(stream: seq<Cell>, origin: Origin, height: nat): seq<seq<Data>> {
    var cells := Window(stream, origin, height);
    seq(height, i requires 0 <= i => GridRow(cells, origin, i))
  }

  lemma GridRowStep(cells: seq<Cell>, last: Cell, origin: Origin, i: nat)
    ensures GridRow(cells + [last], origin, i) ==
      if last.row == origin.row + i && last.col >= origin.col
      then Put(GridRow(cells, origin, i), last.col - origin.col, last.value)
      else GridRow(cells, origin, i)
  {
    hide Put, CellsOf, RightOf, RowFrom;
    var row := CellsOf(cells, origin.row + i);
    CellsOfStep(cells, last, origin.row + i);
    RightOfStep(row, last, origin.col);
    RowFromStep(RightOf(row, origin.col), last, origin.col);
  }

  lemma RightOfStep(cells: seq<Cell>, last: Cell, col: nat)
    ensures RightOf(cells + [last], col) ==
      if last.col >= col then RightOf(cells, col) + [last] else RightOf(cells, col)
  {
    assert (cells + [last])[..|cells|] == cells;
    assert RightOf(cells, col) + [] == RightOf(cells, col);
  }

  lemma {:induction false} WindowStops(stream: seq<Cell>, origin: Origin, height: nat, n: nat)
    requires n <= |stream| && forall i :: 0 <= i < n ==> stream[i].row < origin.row + height
    ensures Window(stream, origin, height) == stream[..n] + Window(stream[n..], origin, height)
  {
    if n > 0 {
      WindowStops(stream[1..], origin, height, n - 1);
      assert stream[1..][n - 1..] == stream[n..] && [stream[0]] + stream[1..][..n - 1] == stream[..n];
    }
  }

  /** The preview's loop over the cell stream. */
  method PreviewGrid(stream: seq<Cell>, origin: Origin, height: nat) returns (scanned: seq<seq<Data>>)
    ensures scanned == Grid(stream, origin, height)
  {
    hide GridRow, Put, Window;
    scanned := seq(height, _ => []);
    var next := 0;
    assert forall i :: 0 <= i < height ==> GridRow([], origin, i) == [] by {
      forall i | 0 <= i < height ensures GridRow([], origin, i) == [] {
        EmptyGridRow(origin, i);
      }
    }
    assert stream[..0] == [];
    while next < |stream|
      invariant 0 <= next <= |stream| && |scanned| == height
      invariant forall i :: 0 <= i < next ==> stream[i].row < origin.row + height
      invariant forall i :: 0 <= i < height ==> scanned[i] == GridRow(stream[..next], origin, i)
    {
      var cell := stream[next];
      assert stream[..next + 1] == stream[..next] + [cell];
      if cell.row >= origin.row {
        var row := cell.row - origin.row;
        if row >= height {
          break;
        }
        if cell.col >= origin.col {
          var col := cell.col - origin.col;
          scanned := scanned[row := Put(scanned[row], col, cell.value)];
        }
      }
      forall i | 0 <= i < height ensures scanned[i] == GridRow(stream[..next + 1], origin, i) {
        GridRowStep(stream[..next], cell, origin, i);
      }
      next := next + 1;
    }
    WindowStops(stream, origin, height, next);
    WindowEnds(stream[next..], origin, height);
    assert stream[..next] + [] == stream[..next];
  }

  lemma EmptyGridRow(origin: Origin, i: nat)
    ensures GridRow([], origin, i) == []
  {
  }

  lemma WindowEnds(rest: seq<Cell>, origin: Origin, height: nat)
    requires rest == [] || origin.row + height <= rest[0].row
    ensures Window(rest, origin, height) == []
  {
  }

  // ---------- the preview against the import ----------

  function NonEmpty(grid: seq<seq<Data>>): seq<seq<Data>> {
    if grid == [] then []
    else NonEmpty(grid[..|grid| - 1]) + (if grid[|grid| - 1] == [] then [] else [grid[|grid| - 1]])
  }

  /** Cells left of a column do not show in a row assembled from that column: there are none,
      or the row's first place keeps a value written from the column itself. */
  predicate LeftIsHarmless(row: seq<Cell>, col: nat) {
    row == [] || (RightOf(row, col) != [] && LastAt(RightOf(row, col), col, 0) == LastAt(row, col, 0))
  }

  /** What the preview shows of a sheet row: nothing outside its window. */
  function Previewed(stream: seq<Cell>, origin: Origin, height: nat, n: nat): seq<Data> {
    if origin.row <= n < origin.row + height then Grid(stream, origin, height)[n - origin.row] else []
  }

  predicate ShownExactly(stream: seq<Cell>, origin: Origin, height: nat, n: nat) {
    Previewed(stream, origin, height, n) == RowFrom(CellsOf(stream, n), origin.col)
  }

  /** Every sheet row up to the last one of the window is previewed as it is imported. */
  predicate PreviewIsExact(stream: seq<Cell>, origin: Origin, height: nat) {
    forall n :: 0 <= n < origin.row + height ==> ShownExactly(stream, origin, height, n)
  }

  /** No cell lies above the declared dimensions, and none left of them shows in the window. */
  predicate OutsideIsHarmless(stream: seq<Cell>, origin: Origin, height: nat) {
    && (forall c <- stream :: origin.row <= c.row)
    && forall n :: origin.row <= n < origin.row + height ==> LeftIsHarmless(CellsOf(stream, n), origin.col)
  }

  lemma {:induction false} NonEmptyUpTo(grid: seq<seq<Data>>, k: nat)
    requires k < |grid| && forall i :: k < i < |grid| ==> grid[i] == []
    ensures NonEmpty(grid) == NonEmpty(grid[..k]) + (if grid[k] == [] then [] else [grid[k]])
  {
    if k < |grid| - 1 {
      var rest := grid[..|grid| - 1];
      NonEmptyUpTo(rest, k);
      assert rest[..k] == grid[..k];
      assert NonEmpty(rest) + [] == NonEmpty(rest);
    }
  }

  lemma {:induction false} RightOfMembers(cells: seq<Cell>, col: nat, c: Cell)
    ensures c in RightOf(cells, col) <==> c in cells && col <= c.col
  {
    if cells != [] {
      RightOfMembers(cells[..|cells| - 1], col, c);
      assert c in cells <==> c in cells[..|cells| - 1] || c == cells[|cells| - 1];
    }
  }

  /** Cells left of a column only reach the first place. */
  lemma {:induction false} LastAtRight(cells: seq<Cell>, col: nat, k: nat)
    requires 0 < k
    ensures LastAt(RightOf(cells, col), col, k) == LastAt(cells, col, k)
  {
    if cells != [] {
      var before, last := cells[..|cells| - 1], cells[|cells| - 1];
      LastAtRight(before, col, k);
      if last.col >= col {
        assert (RightOf(before, col) + [last])[..|RightOf(before, col)|] == RightOf(before, col);
      } else {
        assert RightOf(before, col) + [] == RightOf(before, col);
      }
    }
  }

  /** A previewed row is the imported one if and only if the cells left of it are harmless. */
  lemma {:induction false} RowAgreesExactly(row: seq<Cell>, col: nat)
    ensures RowFrom(RightOf(row, col), col) == RowFrom(row, col) <==> LeftIsHarmless(row, col)
  {
    var right := RightOf(row, col);
    RowFromHolds(row, col);
    RowFromHolds(right, col);
    hide RightOf, LastAt;
    if right == [] || row == [] {
      NothingRight(row, col);
    } else {
      RowFromIsNotEmpty(right, col);
      RowFromIsNotEmpty(row, col);
      SameWidth(row, col);
      forall k | 0 < k < |RowFrom(row, col)| ensures RowFrom(right, col)[k] == RowFrom(row, col)[k] {
        LastAtRight(row, col, k);
      }
    }
  }

  lemma NothingRight(row: seq<Cell>, col: nat)
    requires RightOf(row, col) == [] || row == []
    ensures RowFrom(RightOf(row, col), col) == []
    ensures RowFrom(row, col) == [] <==> row == []
  {
    if row != [] {
      RowFromIsNotEmpty(row, col);
    }
  }

  lemma SameWidth(row: seq<Cell>, col: nat)
    requires RightOf(row, col) != []
    ensures |RowFrom(RightOf(row, col), col)| == |RowFrom(row, col)|
  {
    var right := RightOf(row, col);
    RowFromHolds(row, col);
    RowFromHolds(right, col);
    RightOfMembers(row, col, right[0]);
    RowFromIsNotEmpty(right, col);
    RowFromIsNotEmpty(row, col);
    hide RightOf, LastAt, RowFrom;
    var last :| last in row && Shift(last.col, col) == |RowFrom(row, col)| - 1;
    RightOfMembers(row, col, last);
    var end :| end in right && Shift(end.col, col) == |RowFrom(right, col)| - 1;
    RightOfMembers(row, col, end);
  }

  /** The grid with each sheet row as the import assembles it. */
  function SheetGrid(cells: seq<Cell>, origin: Origin, height: nat): seq<seq<Data>> {
    seq(height, i requires 0 <= i => RowFrom(CellsOf(cells, origin.row + i), origin.col))
  }

  lemma {:induction false} RightOfAll(cells: seq<Cell>, col: nat)
    requires forall c <- cells :: c.col >= col
    ensures RightOf(cells, col) == cells
  {
    if cells != [] {
      var before := cells[..|cells| - 1];
      assert cells[|cells| - 1] in cells && forall c <- before :: c in cells;
      RightOfAll(before, col);
      assert before + [cells[|cells| - 1]] == cells;
    }
  }

  lemma {:induction false} CellsOfMembers(stream: seq<Cell>, row: nat, c: Cell)
    ensures c in CellsOf(stream, row) <==> c in stream && c.row == row
  {
    if stream != [] {
      var before, last := stream[..|stream| - 1], stream[|stream| - 1];
      CellsOfMembers(before, row, c);
      assert c in stream <==> c in before || c == last;
    }
  }

  lemma PutIsNotEmpty(cells: seq<Data>, col: nat, value: Data)
    ensures Put(cells, col, value) != []
  {
  }

  lemma SheetGridStep(before: seq<Cell>, last: Cell, origin: Origin, height: nat)
    requires origin.row <= last.row < origin.row + height
    ensures var k, grid := last.row - origin.row, SheetGrid(before, origin, height);
      SheetGrid(before + [last], origin, height) == grid[k := Put(grid[k], Shift(last.col, origin.col), last.value)]
  {
    hide CellsOf, RowFrom, Put, Shift;
    forall n ensures RowFrom(CellsOf(before + [last], n), origin.col) == if last.row == n
        then Put(RowFrom(CellsOf(before, n), origin.col), Shift(last.col, origin.col), last.value)
        else RowFrom(CellsOf(before, n), origin.col)
    {
      CellsOfStep(before, last, n);
      RowFromStep(CellsOf(before, n), last, origin.col);
    }
  }

  /** Inside the window, the imported grid without its empty rows is the assembled rows. */
  lemma {:induction false} GridIsRows(cells: seq<Cell>, origin: Origin, height: nat)
    requires InRowOrder(cells) && forall c <- cells :: origin.row <= c.row < origin.row + height
    ensures NonEmpty(SheetGrid(cells, origin, height)) == RowsOf(cells, origin.col)
  {
    hide InRowOrder, RowsOf, Put, Shift, RowFrom, CellsOf, RowsAt, RowNumbers, NonEmpty;
    if cells == [] {
      NothingToCollect(origin.col);
      EmptyGrid(origin, height);
    } else {
      var before, last := cells[..|cells| - 1], cells[|cells| - 1];
      assert cells == before + [last] && last in cells && forall c <- before :: c in cells;
      OrderedPrefix(before, last);
      GridIsRows(before, origin, height);
      SheetGridStep(before, last, origin, height);
      var k, grid := last.row - origin.row, SheetGrid(before, origin, height);
      forall i | k < i < height ensures grid[i] == [] {
        NoCellsOf(before, origin.row + i);
        EmptyRow(origin.col);
      }
      var put := Put(grid[k], Shift(last.col, origin.col), last.value);
      PutIsNotEmpty(grid[k], Shift(last.col, origin.col), last.value);
      NonEmptyUpTo(grid, k);
      NonEmptyUpTo(grid[k := put], k);
      assert grid[k := put][..k] == grid[..k];
      NextRows(before, last, origin.col, NonEmpty(grid[..k]), grid[k]);
    }
  }

  lemma {:induction false} RowFromIsNotEmpty(cells: seq<Cell>, offset: nat)
    requires cells != []
    ensures RowFrom(cells, offset) != []
  {
  }

  /** One more cell of an ordered stream, as the grid places it and as the rows take it. */
  lemma NextRows(before: seq<Cell>, last: Cell, offset: nat, done: seq<seq<Data>>, current: seq<Data>)
    requires InRowOrder(before + [last])
    requires current == RowFrom(CellsOf(before, last.row), offset)
    requires done + (if current == [] then [] else [current]) == RowsOf(before, offset)
    ensures done + [Put(current, Shift(last.col, offset), last.value)] == RowsOf(before + [last], offset)
  {
    hide InRowOrder, RowsOf, Put, Shift, RowFrom, CellsOf, RowsAt, RowNumbers;
    assert done + [] == done;
    if before == [] {
      OnlyRow(last, offset);
      NothingToCollect(offset);
      NoCellsOf(before, last.row);
      EmptyRow(offset);
      assert [] + [last] == [last];
    } else {
      OrderedPrefix(before, last);
      RowsOfStep(before, last, offset);
      var row := before[|before| - 1].row;
      if row == last.row {
        CellsOfMembers(before, row, before[|before| - 1]);
        RowFromIsNotEmpty(CellsOf(before, row), offset);
        SameLast(done, RowsAt(before, RowNumbers(before)[..|RowNumbers(before)| - 1], offset), current);
      } else {
        assert before[|before| - 1] in before;
        forall c | c in before ensures c.row != last.row {
          LastRowIsGreatest(before, c);
        }
        NoCellsOf(before, last.row);
        EmptyRow(offset);
      }
    }
  }

  lemma SameLast<T>(a: seq<T>, b: seq<T>, x: T)
    requires a + [x] == b + [x]
    ensures a == b
  {
    assert a == (a + [x])[..|a|] && b == (b + [x])[..|b|];
    assert |a + [x]| == |b + [x]|;
  }

  lemma EmptyGrid(origin: Origin, height: nat)
    ensures NonEmpty(SheetGrid([], origin, height)) == []
  {
    forall i | 0 <= i < height ensures SheetGrid([], origin, height)[i] == [] {
      NoCellsOf([], origin.row + i);
      EmptyRow(origin.col);
    }
    AllEmpty(SheetGrid([], origin, height));
  }

  lemma {:induction false} AllEmpty(grid: seq<seq<Data>>)
    requires forall i :: 0 <= i < |grid| ==> grid[i] == []
    ensures NonEmpty(grid) == []
  {
    if grid != [] {
      AllEmpty(grid[..|grid| - 1]);
    }
  }

  lemma WindowIsPrefix(stream: seq<Cell>, origin: Origin, height: nat) returns (n: nat)
    requires InRowOrder(stream)
    ensures n <= |stream| && Window(stream, origin, height) == stream[..n]
    ensures forall c <- stream[..n] :: c.row < origin.row + height
    ensures forall c <- stream[n..] :: origin.row + height <= c.row
  {
    n := 0;
    while n < |stream| && stream[n].row < origin.row + height
      invariant n <= |stream|
      invariant forall i :: 0 <= i < n ==> stream[i].row < origin.row + height
    {
      n := n + 1;
    }
    WindowStops(stream, origin, height, n);
    WindowEnds(stream[n..], origin, height);
    assert stream[..n] + [] == stream[..n];
  }

  /** Cells of later rows leave the rows before them alone. */
  lemma {:induction false} LaterRowsAppend(before: seq<Cell>, more: seq<Cell>, offset: nat)
    requires InRowOrder(before + more)
    requires forall a <- before, b <- more :: a.row < b.row
    ensures RowsOf(before, offset) <= RowsOf(before + more, offset)
    ensures more != [] ==> |RowsOf(before, offset)| < |RowsOf(before + more, offset)|
  {
    hide InRowOrder, RowsOf, Put, RowFrom, CellsOf, RowsAt, RowNumbers;
    if more == [] {
      assert before + more == before;
    } else {
      var rest, last := more[..|more| - 1], more[|more| - 1];
      assert before + more == (before + rest) + [last];
      assert last in more && forall b <- rest :: b in more;
      OrderedPrefix(before + rest, last);
      LaterRowsAppend(before, rest, offset);
      if before + rest == [] {
        assert before == [] && before + more == [last];
        OnlyRow(last, offset);
        NothingToCollect(offset);
      } else {
        RowsOfStep(before + rest, last, offset);
        if rest == [] {
          assert before + rest == before && before[|before| - 1] in before;
        }
      }
    }
  }

  /** Later cells of other rows do not matter to a row. */
  lemma {:induction false} CellsOfWindow(before: seq<Cell>, more: seq<Cell>, n: nat)
    requires forall c <- more :: c.row != n
    ensures CellsOf(before + more, n) == CellsOf(before, n)
  {
    if more == [] {
      assert before + more == before;
    } else {
      var rest, last := more[..|more| - 1], more[|more| - 1];
      assert before + more == (before + rest) + [last];
      assert last in more && forall c <- rest :: c in more;
      CellsOfWindow(before, rest, n);
      CellsOfStep(before + rest, last, n);
    }
  }

  /** What the preview shows of a row inside its window. */
  lemma PreviewedRow(stream: seq<Cell>, origin: Origin, height: nat, n: nat)
    requires InRowOrder(stream) && origin.row <= n < origin.row + height
    ensures Previewed(stream, origin, height, n) == RowFrom(RightOf(CellsOf(stream, n), origin.col), origin.col)
  {
    hide Window, CellsOf, RightOf, RowFrom, InRowOrder;
    var k := WindowIsPrefix(stream, origin, height);
    CellsOfWindow(stream[..k], stream[k..], n);
    assert stream == stream[..k] + stream[k..];
  }

  /** The preview shows every row down to the end of its window as the import assembles it, if
      and only if no cell lies above the declared dimensions and those left of them show nowhere
      in the window. */
  lemma PreviewAgreesExactly(stream: seq<Cell>, origin: Origin, height: nat)
    requires InRowOrder(stream)
    ensures PreviewIsExact(stream, origin, height) <==> OutsideIsHarmless(stream, origin, height)
  {
    hide Previewed, LeftIsHarmless, InRowOrder, RowFrom, CellsOf;
    forall n | origin.row <= n < origin.row + height
      ensures ShownExactly(stream, origin, height, n) <==>
              LeftIsHarmless(CellsOf(stream, n), origin.col)
    {
      PreviewedRow(stream, origin, height, n);
      RowAgreesExactly(CellsOf(stream, n), origin.col);
    }
    forall n | 0 <= n < origin.row
      ensures ShownExactly(stream, origin, height, n) <==>
              forall c <- stream :: c.row != n
    {
      RowAbove(stream, origin, height, n);
    }
    if PreviewIsExact(stream, origin, height) {
      forall c | c in stream ensures origin.row <= c.row {
        var exact := ShownExactly(stream, origin, height, c.row);
      }
    }
  }

  /** A row above the window is previewed as imported exactly when it has no cell. */
  lemma RowAbove(stream: seq<Cell>, origin: Origin, height: nat, n: nat)
    requires n < origin.row
    ensures ShownExactly(stream, origin, height, n) <==> forall c <- stream :: c.row != n
  {
    if c :| c in stream && c.row == n {
      CellsOfMembers(stream, n, c);
      RowFromIsNotEmpty(CellsOf(stream, n), origin.col);
    } else {
      NoCellsOf(stream, n);
    }
  }

  /** Then the preview's grid without its empty rows is a prefix of the rows the import
      assembles from the same stream. */
  lemma PreviewIsPrefix(stream: seq<Cell>, origin: Origin, height: nat)
    requires InRowOrder(stream) && OutsideIsHarmless(stream, origin, height)
    ensures NonEmpty(Grid(stream, origin, height)) <= RowsOf(stream, origin.col)
  {
    hide RowsOf, NonEmpty, RowFrom, RightOf, CellsOf, LeftIsHarmless, GridRow, Window, InRowOrder;
    var n := WindowIsPrefix(stream, origin, height);
    var shown := stream[..n];
    assert stream == shown + stream[n..];
    OrderedStart(stream, n);
    assert forall c <- shown :: c in stream;
    GridIsRows(shown, origin, height);
    var grid := SheetGrid(shown, origin, height);
    forall i | 0 <= i < height ensures grid[i] == Grid(stream, origin, height)[i] {
      var row := CellsOf(stream, origin.row + i);
      PreviewedRow(stream, origin, height, origin.row + i);
      RowAgreesExactly(row, origin.col);
      CellsOfWindow(shown, stream[n..], origin.row + i);
    }
    assert Grid(stream, origin, height) == grid;
    LaterRowsAppend(shown, stream[n..], origin.col);
  }

  lemma OrderedStart(stream: seq<Cell>, n: nat)
    requires InRowOrder(stream) && n <= |stream|
    ensures InRowOrder(stream[..n])
  {
  }

  /** A stream inside the declared dimensions has no harmful cell. */
  lemma InsideIsHarmless(stream: seq<Cell>, origin: Origin, height: nat)
    requires forall c <- stream :: origin.row <= c.row && origin.col <= c.col
    ensures OutsideIsHarmless(stream, origin, height)
  {
    hide CellsOf, RightOf, LastAt;
    forall n | origin.row <= n < origin.row + height ensures LeftIsHarmless(CellsOf(stream, n), origin.col) {
      var row := CellsOf(stream, n);
      forall c | c in row ensures origin.col <= c.col {
        CellsOfMembers(stream, n, c);
      }
      RightOfAll(row, origin.col);
    }
  }

  /** A cell left of the declared dimensions is kept by the import and not shown by the
      preview, so the two then disagree about the first row. */
  lemma LeftCellBreaksPrefix(a: Data, b: Data)
    requires a != Empty
    ensures var stream, origin := [Cell(0, 0, a)] + [Cell(0, 2, b)], Origin(0, 1);
      && InRowOrder(stream)
      && RowsOf(stream, origin.col) == [[a, b]]
      && Grid(stream, origin, 1) == [[Empty, b]]
  {
    var first, second, origin := Cell(0, 0, a), Cell(0, 2, b), Origin(0, 1);
    assert Put([], 0, a) == [a] && Put([a], 1, b) == [a, b] && Put([], 1, b) == [Empty, b];
    assert Shift(0, 1) == 0;
    hide RowsOf, GridRow, RowFrom, CellsOf, RowsAt, RowNumbers, Put;
    FirstRow(first, 1);
    NextRows([first], second, 1, [], [a]);
    TwoCellGrid(first, second, origin);
  }

  lemma FirstRow(c: Cell, offset: nat)
    ensures RowFrom(CellsOf([c], c.row), offset) == Put([], Shift(c.col, offset), c.value)
    ensures forall row :: row != c.row ==> CellsOf([c], row) == []
    ensures RowsOf([c], offset) == [Put([], Shift(c.col, offset), c.value)]
  {
    hide RowsOf, Put;
    OnlyRow(c, offset);
    CellsOfStep([], c, c.row);
    RowFromStep([], c, offset);
    assert [] + [c] == [c];
  }

  /** The one-row grid of two cells in the window. */
  lemma TwoCellGrid(first: Cell, second: Cell, origin: Origin)
    requires first.row <= origin.row && second.row <= origin.row
    ensures Grid([first] + [second], origin, 1) == [GridRow([first] + [second], origin, 0)]
    ensures GridRow([], origin, 0) == []
    ensures GridRow([first], origin, 0) ==
      if first.row == origin.row && first.col >= origin.col then Put([], first.col - origin.col, first.value) else []
    ensures GridRow([first] + [second], origin, 0) ==
      if second.row == origin.row && second.col >= origin.col
      then Put(GridRow([first], origin, 0), second.col - origin.col, second.value) else GridRow([first], origin, 0)
  {
    hide GridRow, Put;
    var stream := [first] + [second];
    assert stream[1..] == [second] && [second][1..] == [];
    assert Window([second], origin, 1) == [second] + Window([], origin, 1);
    assert Window(stream, origin, 1) == [first] + Window([second], origin, 1);
    assert Window(stream, origin, 1) == stream;
    EmptyGridRow(origin, 0);
    GridRowStep([], first, origin, 0);
    assert [] + [first] == [first];
    GridRowStep([first], second, origin, 0);
  }

  /** A row above the declared dimensions is imported first and never previewed. */
  lemma RowAboveBreaksPrefix(a: Data, b: Data)
    requires a != b
    ensures var stream, origin := [Cell(0, 0, a)] + [Cell(1, 0, b)], Origin(1, 0);
      && InRowOrder(stream)
      && RowsOf(stream, origin.col) == [[a], [b]]
      && Grid(stream, origin, 1) == [[b]]
  {
    hide RowsOf, Grid, InRowOrder, GridRow, CellsOf, RowFrom, RightOf, Put;
    var first, second := Cell(0, 0, a), Cell(1, 0, b);
    TwoRowsAssembled(first, second, 0);
    TwoCellGrid(first, second, Origin(1, 0));
    PutFirst(a);
    PutFirst(b);
  }

  lemma TwoRowsAssembled(first: Cell, second: Cell, offset: nat)
    requires first.row < second.row
    ensures InRowOrder([first] + [second])
    ensures RowsOf([first] + [second], offset) ==
      [Put([], Shift(first.col, offset), first.value)] + [Put([], Shift(second.col, offset), second.value)]
  {
    hide RowsOf, RowFrom, CellsOf, Put;
    var done := [Put([], Shift(first.col, offset), first.value)];
    assert done + [] == done;
    FirstRow(first, offset);
    EmptyRow(offset);
    NextRows([first], second, offset, done, []);
  }

  lemma PutFirst(value: Data)
    ensures Put([], 0, value) == [value]
  {
  }
}
