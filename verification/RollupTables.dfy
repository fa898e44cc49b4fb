/** The rollup tables `build_rollups` fills from the projected records, and what each row
    of them holds in terms of the records it was grouped from. */
module RollupTables {
  import opened Basics
  import opened Sql
  import opened Records
  import opened Measures
  import opened Modes

  datatype Scope = Canonical | Occurrences

  /** A row of the `rollup_records` view. */
  datatype Tagged = Tagged(scope: Scope, record: Record, netKg: Option<real>, grossKg: Option<real>)

  /** A row of the `rollup_expanded` view. */
  datatype Row = Row(scope: Scope, yearKey: int, record: Record, netKg: Option<real>, grossKg: Option<real>)

  // ---------- the views ----------

  function Tag(scope: Scope): Record -> Tagged {
    (r: Record) => Tagged(scope, r, NetKg(r), GrossKg(r))
  }

  predicate IsCanonical(r: Record) {
    r.dupFirstFile.None?
  }

  function RollupRecords(records: seq<Record>): seq<Tagged> {
    Mapped(records, Tag(Occurrences)) + Mapped(Where(records, IsCanonical), Tag(Canonical))
  }

  function InAllYears(t: Tagged): Row {
    Row(t.scope, 0, t.record, t.netKg, t.grossKg)
  }

  predicate InEveryYear(t: Tagged) {
    true
  }

  predicate HasYearRow(t: Tagged) {
    t.record.year.Some? && t.record.year.value != 0
  }

  function InItsYear(t: Tagged): Row {
    Row(t.scope, Coalesce(t.record.year, 0), t.record, t.netKg, t.grossKg)
  }

  function RollupExpanded(records: seq<Record>): seq<Row> {
    var tagged := RollupRecords(records);
    Mapped(tagged, InAllYears) + Mapped(Where(tagged, HasYearRow), InItsYear)
  }

  // ---------- what a group of the expanded view stands for ----------

  function RecordOf(row: Row): Record {
    row.record
  }

  function InSliceOf(scope: Scope, yearKey: int): Row -> bool {
    (row: Row) => row.scope == scope && row.yearKey == yearKey
  }

  function Slice(records: seq<Record>, scope: Scope, yearKey: int): seq<Row> {
    Where(RollupExpanded(records), InSliceOf(scope, yearKey))
  }

  predicate InScope(r: Record, scope: Scope) {
    scope == Canonical ==> IsCanonical(r)
  }

  function InYear(year: int): Record -> bool {
    (r: Record) => r.year == Some(year)
  }

  function Selects(scope: Scope, yearKey: int): Record -> bool {
    (r: Record) => InScope(r, scope) && (yearKey != 0 ==> r.year == Some(yearKey))
  }

  /** The records a detail scan of that scope and year reads. */
  function Selected(records: seq<Record>, scope: Scope, yearKey: int): seq<Record> {
    Where(records, Selects(scope, yearKey))
  }

  predicate Carries(row: Row) {
    row.netKg == NetKg(row.record) && row.grossKg == GrossKg(row.record)
  }

  /** The records one of the four union branches contributes to a slice. */
  function Branch(records: seq<Record>, from: Scope, keep: Tagged -> bool, place: Tagged -> Row,
                  scope: Scope, yearKey: int): seq<Record> {
    Mapped(Where(Mapped(Where(Mapped(records, Tag(from)), keep), place), InSliceOf(scope, yearKey)), RecordOf)
  }

  lemma SliceBranches(records: seq<Record>, scope: Scope, yearKey: int)
    ensures var canonical := Where(records, IsCanonical);
      Mapped(Slice(records, scope, yearKey), RecordOf) ==
        Branch(records, Occurrences, InEveryYear, InAllYears, scope, yearKey) +
        Branch(canonical, Canonical, InEveryYear, InAllYears, scope, yearKey) +
        (Branch(records, Occurrences, HasYearRow, InItsYear, scope, yearKey) +
         Branch(canonical, Canonical, HasYearRow, InItsYear, scope, yearKey))
  {
    hide InSliceOf, InAllYears, InItsYear, HasYearRow, Where, Mapped, Tag;
    var canonical, p := Where(records, IsCanonical), InSliceOf(scope, yearKey);
    var a, b := Mapped(records, Tag(Occurrences)), Mapped(canonical, Tag(Canonical));
    WhereAll(a, InEveryYear);
    WhereAll(b, InEveryYear);
    MappedConcat(a, b, InAllYears);
    WhereConcat(a, b, HasYearRow);
    MappedConcat(Where(a, HasYearRow), Where(b, HasYearRow), InItsYear);
    var a0, b0 := Mapped(a, InAllYears), Mapped(b, InAllYears);
    var a1, b1 := Mapped(Where(a, HasYearRow), InItsYear), Mapped(Where(b, HasYearRow), InItsYear);
    WhereConcat(a0 + b0, a1 + b1, p);
    WhereConcat(a0, b0, p);
    WhereConcat(a1, b1, p);
    MappedConcat(Where(a0, p) + Where(b0, p), Where(a1, p) + Where(b1, p), RecordOf);
    MappedConcat(Where(a0, p), Where(b0, p), RecordOf);
    MappedConcat(Where(a1, p), Where(b1, p), RecordOf);
  }

  lemma AllYearsBranch(records: seq<Record>, from: Scope, scope: Scope, yearKey: int)
    ensures Branch(records, from, InEveryYear, InAllYears, scope, yearKey) ==
      if from == scope && yearKey == 0 then records else []
  {
    hide Where, Mapped, NetKg, GrossKg;
    var q := (r: Record) => from == scope && yearKey == 0;
    BranchOfUnion(records, Tag(from), InEveryYear, InAllYears, InSliceOf(scope, yearKey), RecordOf, q);
    if from == scope && yearKey == 0 {
      WhereAll(records, q);
    } else {
      WhereNone(records, q);
    }
  }

  lemma YearBranch(records: seq<Record>, from: Scope, scope: Scope, yearKey: int)
    ensures Branch(records, from, HasYearRow, InItsYear, scope, yearKey) ==
      if from == scope && yearKey != 0 then Where(records, InYear(yearKey)) else []
  {
    hide Where, Mapped, NetKg, GrossKg;
    var q := (r: Record) => from == scope && yearKey != 0 && r.year == Some(yearKey);
    BranchOfUnion(records, Tag(from), HasYearRow, InItsYear, InSliceOf(scope, yearKey), RecordOf, q);
    if from == scope && yearKey != 0 {
      WhereCongruent(records, q, InYear(yearKey));
    } else {
      WhereNone(records, q);
    }
  }

  /** Filtering the expanded view by scope and year key reads exactly the records a detail
      scan with that scope and year reads, in the same order and each once. */
  lemma SliceIsSelection(records: seq<Record>, scope: Scope, yearKey: int)
    ensures Mapped(Slice(records, scope, yearKey), RecordOf) == Selected(records, scope, yearKey)
  {
    hide Where, Mapped, Branch;
    var canonical := Where(records, IsCanonical);
    SliceBranches(records, scope, yearKey);
    AllYearsBranch(records, Occurrences, scope, yearKey);
    AllYearsBranch(canonical, Canonical, scope, yearKey);
    YearBranch(records, Occurrences, scope, yearKey);
    YearBranch(canonical, Canonical, scope, yearKey);
    var selects := Selects(scope, yearKey);
    if scope == Canonical && yearKey == 0 {
      WhereCongruent(records, IsCanonical, selects);
    } else if scope == Canonical {
      WhereBoth(records, IsCanonical, InYear(yearKey), selects);
    } else if yearKey == 0 {
      WhereAll(records, selects);
    } else {
      WhereCongruent(records, InYear(yearKey), selects);
    }
  }

  /** Every row of the expanded view carries its record's converted weights. */
  lemma ExpandedCarries(records: seq<Record>)
    ensures forall row <- RollupExpanded(records) :: Carries(row)
  {
    hide NetKg, GrossKg, Where;
    var tagged := RollupRecords(records);
    MappedMembers(records, Tag(Occurrences));
    MappedMembers(Where(records, IsCanonical), Tag(Canonical));
    MappedMembers(tagged, InAllYears);
    MappedMembers(Where(tagged, HasYearRow), InItsYear);
    forall t | t in Where(tagged, HasYearRow) ensures t in tagged {
      WhereMembers(tagged, HasYearRow, t);
    }
  }

  // ---------- grouping ----------

  /** The expression a rollup is grouped by; NULL and blank labels are left out. */
  type Label = Record -> Option<string>

  function Labelled(labelOf: Label, l: string): Record -> bool {
    (r: Record) => labelOf(r) == Some(l)
  }

  function InGroup(labelOf: Label, scope: Scope, yearKey: int, l: string): Row -> bool {
    (row: Row) => row.scope == scope && row.yearKey == yearKey && labelOf(row.record) == Some(l)
  }

  /** The rows of one (scope, year, label) group. */
  function GroupRows(records: seq<Record>, labelOf: Label, scope: Scope, yearKey: int, l: string): seq<Row> {
    Where(RollupExpanded(records), InGroup(labelOf, scope, yearKey, l))
  }

  lemma GroupIsSelection(records: seq<Record>, labelOf: Label, scope: Scope, yearKey: int, l: string)
    ensures var rows := GroupRows(records, labelOf, scope, yearKey, l);
      && Mapped(rows, RecordOf) == Where(Selected(records, scope, yearKey), Labelled(labelOf, l))
      && (forall row <- rows :: Carries(row))
  {
    hide Where, Mapped, RollupExpanded, Selected, Carries;
    var expanded := RollupExpanded(records);
    var labelled := (row: Row) => labelOf(row.record) == Some(l);
    WhereBoth(expanded, InSliceOf(scope, yearKey), labelled, InGroup(labelOf, scope, yearKey, l));
    var slice := Slice(records, scope, yearKey);
    WhereOfMapped(slice, RecordOf, Labelled(labelOf, l), labelled);
    SliceIsSelection(records, scope, yearKey);
    ExpandedCarries(records);
    forall row | row in GroupRows(records, labelOf, scope, yearKey, l) ensures row in expanded {
      WhereMembers(expanded, InGroup(labelOf, scope, yearKey, l), row);
    }
  }

  // ---------- the aggregates of a group ----------

  /** The columns a month or section row is answered from. */
  datatype Cells = Cells(
    rows: nat, declarations: nat, companies: nat,
    totalValue: real, netKg: real, grossKg: real, quantity: real,
    pairedValue: real, pairedKg: real,
    valuedRows: nat, netRows: nat, grossRows: nat,
    netSource: real, grossSource: real,
    pairedRows: nat, pairedSourceValue: real, pairedSourceNet: real)

  const EMPTY_CELLS := Cells(0, 0, 0, 0.0, 0.0, 0.0, 0.0, 0.0, 0.0, 0, 0, 0, 0.0, 0.0, 0, 0.0, 0.0)

  /** `CASE WHEN value IS NOT NULL AND weight > 0 THEN x ELSE 0.0 END`. */
  function PairedOrZero(value: Option<real>, weight: Option<real>, x: Option<real>): Option<real> {
    if Holds(And(IsNotNull(value), Positive(weight))) then x else Some(0.0)
  }

  /** `CASE WHEN value IS NOT NULL AND weight > 0 THEN x END`. */
  function PairedOnly(value: Option<real>, weight: Option<real>, x: Option<real>): Option<real> {
    if Holds(And(IsNotNull(value), Positive(weight))) then x else None
  }

  function DeclarationOf(r: Record): Option<string> {
    r.declaration
  }

  function EdrpouOf(r: Record): Option<string> {
    r.edrpou
  }

  function QuantityOf(r: Record): Option<real> {
    r.quantity
  }

  function PairedValueOf(r: Record): Option<real> {
    PairedOrZero(r.value, NetKg(r), r.value)
  }

  function PairedKgOf(r: Record): Option<real> {
    PairedOrZero(r.value, NetKg(r), NetKg(r))
  }

  function PairedMarkOf(r: Record): Option<real> {
    PairedOnly(r.value, r.net, Some(1.0))
  }

  function PairedSourceValueOf(r: Record): Option<real> {
    PairedOnly(r.value, r.net, r.value)
  }

  function PairedSourceNetOf(r: Record): Option<real> {
    PairedOnly(r.value, r.net, r.net)
  }

  /** The detail scan's aggregates: weights are converted where they are read. */
  ghost function CellsOf(rows: seq<Record>): Cells {
    Cells(|rows|, Distinct(rows, DeclarationOf), Distinct(rows, EdrpouOf),
          Total(rows, ValueOf), Total(rows, NetKg), Total(rows, GrossKg), Total(rows, QuantityOf),
          Total(rows, PairedValueOf), Total(rows, PairedKgOf),
          CountOf(rows, ValueOf), CountOf(rows, NetOf), CountOf(rows, GrossOf),
          Total(rows, NetOf), Total(rows, GrossOf),
          CountOf(rows, PairedMarkOf), Total(rows, PairedSourceValueOf), Total(rows, PairedSourceNetOf))
  }

  /** A row whose value can be divided by its kilograms. */
  predicate HasKgPrice(r: Record) {
    r.value.Some? && NetKg(r).Some? && NetKg(r).value > 0.0
  }

  /** A row with a value and a positive weight, in whatever unit. */
  predicate HasPairedWeight(r: Record) {
    r.value.Some? && r.net.Some? && r.net.value > 0.0
  }

  /** What the cells of some rows hold, in terms of the rows alone. */
  ghost predicate AreCellsOf(c: Cells, rows: seq<Record>) {
    var priced, paired := Where(rows, HasKgPrice), Where(rows, HasPairedWeight);
    && c.rows == |rows|
    && c.declarations == |Texts(rows, DeclarationOf)| && c.companies == |Texts(rows, EdrpouOf)|
    && c.totalValue == Total(rows, ValueOf) && c.netKg == Total(rows, NetKg)
    && c.grossKg == Total(rows, GrossKg) && c.quantity == Total(rows, QuantityOf)
    && c.pairedValue == Total(priced, ValueOf) && c.pairedKg == Total(priced, NetKg)
    && c.valuedRows == |Where(rows, (r: Record) => r.value.Some?)|
    && c.netRows == |Where(rows, (r: Record) => r.net.Some?)|
    && c.grossRows == |Where(rows, (r: Record) => r.gross.Some?)|
    && c.netSource == Total(rows, NetOf) && c.grossSource == Total(rows, GrossOf)
    && c.pairedRows == |paired|
    && c.pairedSourceValue == Total(paired, ValueOf) && c.pairedSourceNet == Total(paired, NetOf)
  }

  /** The paired columns are plain sums over the rows that have both measures. */
  lemma CellsHold(rows: seq<Record>)
    ensures AreCellsOf(CellsOf(rows), rows)
  {
    hide Total, CountOf, Distinct, Where, HasKgPrice, HasPairedWeight, NetKg, GrossKg;
    DistinctIs(rows, DeclarationOf);
    DistinctIs(rows, EdrpouOf);
    PricedCellsHold(rows);
    PairedCellsHold(rows);
    CountOfSome(rows, (r: Record) => r.value.Some?, ValueOf);
    CountOfSome(rows, (r: Record) => r.net.Some?, NetOf);
    CountOfSome(rows, (r: Record) => r.gross.Some?, GrossOf);
  }

  lemma PricedCellsHold(rows: seq<Record>)
    ensures var priced, c := Where(rows, HasKgPrice), CellsOf(rows);
      c.pairedValue == Total(priced, ValueOf) && c.pairedKg == Total(priced, NetKg)
  {
    hide Total, CountOf, Distinct, NetKg, GrossKg;
    TotalOfSome(rows, HasKgPrice, PairedValueOf, ValueOf);
    TotalOfSome(rows, HasKgPrice, PairedKgOf, NetKg);
  }

  lemma PairedCellsHold(rows: seq<Record>)
    ensures var paired, c := Where(rows, HasPairedWeight), CellsOf(rows);
      && c.pairedRows == |paired|
      && c.pairedSourceValue == Total(paired, ValueOf) && c.pairedSourceNet == Total(paired, NetOf)
  {
    hide Total, CountOf, Distinct, NetKg, GrossKg;
    CountOfSome(rows, HasPairedWeight, PairedMarkOf);
    TotalOfSome(rows, HasPairedWeight, PairedSourceValueOf, ValueOf);
    TotalOfSome(rows, HasPairedWeight, PairedSourceNetOf, NetOf);
  }

  lemma PricedArePaired(rows: seq<Record>)
    ensures Where(rows, HasKgPrice) == Paired(rows)
  {
    forall r | r in rows ensures HasKgPrice(r) == IsPaired(r) {
      assert NetKg(r).Some? ==> r.net.Some?;
      hide NetKg;
    }
    WhereCongruent(rows, HasKgPrice, IsPaired);
  }

  /** The rollup's aggregates, over the columns of the expanded view. */
  ghost function RollupCells(rows: seq<Row>): Cells {
    Cells(|rows|, Distinct(rows, (x: Row) => x.record.declaration), Distinct(rows, (x: Row) => x.record.edrpou),
          Total(rows, (x: Row) => x.record.value), Total(rows, (x: Row) => x.netKg), Total(rows, (x: Row) => x.grossKg),
          Total(rows, (x: Row) => x.record.quantity),
          Total(rows, (x: Row) => PairedOrZero(x.record.value, x.netKg, x.record.value)),
          Total(rows, (x: Row) => PairedOrZero(x.record.value, x.netKg, x.netKg)),
          CountOf(rows, (x: Row) => x.record.value), CountOf(rows, (x: Row) => x.record.net),
          CountOf(rows, (x: Row) => x.record.gross),
          Total(rows, (x: Row) => x.record.net), Total(rows, (x: Row) => x.record.gross),
          CountOf(rows, (x: Row) => PairedOnly(x.record.value, x.record.net, Some(1.0))),
          Total(rows, (x: Row) => PairedOnly(x.record.value, x.record.net, x.record.value)),
          Total(rows, (x: Row) => PairedOnly(x.record.value, x.record.net, x.record.net)))
  }

  lemma RollupCellsAre(rows: seq<Row>)
    requires forall row <- rows :: Carries(row)
    ensures RollupCells(rows) == CellsOf(Mapped(rows, RecordOf))
  {
    hide NetKg, GrossKg, PairedOrZero, PairedOnly, Distinct, Total, CountOf, Mapped;
    SameDistinct(rows, RecordOf, (x: Row) => x.record.declaration, DeclarationOf);
    SameDistinct(rows, RecordOf, (x: Row) => x.record.edrpou, EdrpouOf);
    SameTotal(rows, RecordOf, (x: Row) => x.record.value, ValueOf);
    SameTotal(rows, RecordOf, (x: Row) => x.netKg, NetKg);
    SameTotal(rows, RecordOf, (x: Row) => x.grossKg, GrossKg);
    SameTotal(rows, RecordOf, (x: Row) => x.record.quantity, QuantityOf);
    SameTotal(rows, RecordOf, (x: Row) => PairedOrZero(x.record.value, x.netKg, x.record.value), PairedValueOf);
    SameTotal(rows, RecordOf, (x: Row) => PairedOrZero(x.record.value, x.netKg, x.netKg), PairedKgOf);
    SameColumn(rows, RecordOf, (x: Row) => x.record.value, ValueOf);
    SameColumn(rows, RecordOf, (x: Row) => x.record.net, NetOf);
    SameColumn(rows, RecordOf, (x: Row) => x.record.gross, GrossOf);
    SameTotal(rows, RecordOf, (x: Row) => x.record.net, NetOf);
    SameTotal(rows, RecordOf, (x: Row) => x.record.gross, GrossOf);
    SameColumn(rows, RecordOf, (x: Row) => PairedOnly(x.record.value, x.record.net, Some(1.0)), PairedMarkOf);
    SameTotal(rows, RecordOf, (x: Row) => PairedOnly(x.record.value, x.record.net, x.record.value),
              PairedSourceValueOf);
    SameTotal(rows, RecordOf, (x: Row) => PairedOnly(x.record.value, x.record.net, x.record.net), PairedSourceNetOf);
  }

  // ---------- the monthly and section tables ----------

  /** A row of `rollup_monthly` or `rollup_sections`: the USD column is NULL unless the
      group is one known USD cohort. */
  datatype GroupRow = GroupRow(cells: Cells, usd: Option<real>)

  type GroupTable = map<(Scope, int, string), GroupRow>

  ghost function Labels(rows: seq<Record>, labelOf: Label): set<string> {
    Values(rows, r => NullIfBlank(labelOf(r)))
  }

  ghost function TableKeys(expanded: seq<Row>, labelOf: Label): set<(Scope, int, string)> {
    set row <- expanded | NullIfBlank(labelOf(row.record)).Some? ::
      (row.scope, row.yearKey, labelOf(row.record).value)
  }

  ghost function RowOf(rows: seq<Row>): GroupRow {
    GroupRow(RollupCells(rows), UsdColumn(Mapped(rows, RecordOf)))
  }

  /** `GROUP BY record_scope, year_key, label` over the labelled rows of the view. */
  ghost function TableOf(records: seq<Record>, labelOf: Label): GroupTable {
    map k | k in TableKeys(RollupExpanded(records), labelOf) :: RowOf(GroupRows(records, labelOf, k.0, k.1, k.2))
  }

  /** The rows a query with `record_scope = ? AND year_key = ?` reads. */
  ghost function Read(table: GroupTable, scope: Scope, yearKey: int): map<string, GroupRow> {
    map k | k in table && k.0 == scope && k.1 == yearKey :: k.2 := table[k]
  }

  /** The groups of the detail scan. */
  ghost function DetailGroups(rows: seq<Record>, labelOf: Label): map<string, Cells> {
    map l | l in Labels(rows, labelOf) :: CellsOf(Where(rows, Labelled(labelOf, l)))
  }

  lemma LabelMembers(rows: seq<Record>, labelOf: Label, l: string)
    ensures l in Labels(rows, labelOf) <==> l != "" && exists r :: r in rows && labelOf(r) == Some(l)
  {
    if r :| r in rows && labelOf(r) == Some(l) && l != "" {
      assert NullIfBlank(labelOf(r)) == Some(l);
    }
  }

  lemma TableKeyMembers(records: seq<Record>, labelOf: Label, scope: Scope, yearKey: int, l: string)
    ensures (scope, yearKey, l) in TableKeys(RollupExpanded(records), labelOf) <==>
      l in Labels(Selected(records, scope, yearKey), labelOf)
  {
    hide RollupExpanded, Selected, Where, Labels;
    var expanded, selected := RollupExpanded(records), Selected(records, scope, yearKey);
    var slice := Slice(records, scope, yearKey);
    SliceIsSelection(records, scope, yearKey);
    MappedMembers(slice, RecordOf);
    LabelMembers(selected, labelOf, l);
    forall row ensures row in slice <==> row in expanded && row.scope == scope && row.yearKey == yearKey {
      WhereMembers(expanded, InSliceOf(scope, yearKey), row);
    }
    if (scope, yearKey, l) in TableKeys(expanded, labelOf) {
      var row :| row in expanded && NullIfBlank(labelOf(row.record)).Some? &&
        (row.scope, row.yearKey, labelOf(row.record).value) == (scope, yearKey, l);
      assert RecordOf(row) in selected;
    }
    if l in Labels(selected, labelOf) {
      var r :| r in selected && labelOf(r) == Some(l);
      var row :| row in slice && RecordOf(row) == r;
      assert NullIfBlank(labelOf(row.record)) == Some(l);
    }
  }

  /** Reading a grouped table for a scope and year finds exactly the detail scan's groups,
      with exactly its aggregates. */
  lemma TableIsDetail(records: seq<Record>, labelOf: Label, scope: Scope, yearKey: int)
    ensures var read := Read(TableOf(records, labelOf), scope, yearKey);
      var selected := Selected(records, scope, yearKey);
      var detail := DetailGroups(selected, labelOf);
      && read.Keys == detail.Keys
      && (forall l <- detail :: read[l] == GroupRow(detail[l], UsdColumn(Where(selected, Labelled(labelOf, l)))))
  {
    hide RollupExpanded, Selected, Where, Labels, TableKeys, RowOf, CellsOf, UsdColumn, GroupRows, Labelled;
    var table, selected := TableOf(records, labelOf), Selected(records, scope, yearKey);
    var read, detail := Read(table, scope, yearKey), DetailGroups(selected, labelOf);
    forall l ensures l in read <==> l in detail
      ensures l in detail ==> read[l] == GroupRow(detail[l], UsdColumn(Where(selected, Labelled(labelOf, l))))
    {
      TableKeyMembers(records, labelOf, scope, yearKey, l);
      if l in detail {
        assert (scope, yearKey, l) in table;
        RowIsSelection(records, labelOf, scope, yearKey, l);
      }
    }
  }

  lemma RowIsSelection(records: seq<Record>, labelOf: Label, scope: Scope, yearKey: int, l: string)
    ensures var group := Where(Selected(records, scope, yearKey), Labelled(labelOf, l));
      RowOf(GroupRows(records, labelOf, scope, yearKey, l)) == GroupRow(CellsOf(group), UsdColumn(group))
  {
    hide GroupRows, Where, CellsOf, UsdColumn, RollupCells, Selected, Labelled, Carries;
    GroupIsSelection(records, labelOf, scope, yearKey, l);
    RollupCellsAre(GroupRows(records, labelOf, scope, yearKey, l));
  }

  datatype Kind =
    | Recipients | Senders | Edrpou | Trademarks | ProductGroups
    | OriginCountries | DispatchCountries | TradeCountries | ProductCodes

  /** The (kind, stored level) pairs `build_rollups` inserts, in its order. */
  const BUILT_SECTIONS: seq<(Kind, int)> := [
    (Recipients, 0), (Senders, 0), (Edrpou, 0), (Trademarks, 0), (ProductGroups, 0),
    (OriginCountries, 0), (DispatchCountries, 0), (TradeCountries, 0),
    (ProductCodes, 2), (ProductCodes, 3), (ProductCodes, 4), (ProductCodes, 5),
    (ProductCodes, 6), (ProductCodes, 7), (ProductCodes, 8), (ProductCodes, 10)]

  /** `SUBSTR(x, 1, n)`. */
  function Prefix(x: Option<string>, n: nat): Option<string> {
    match x
    case None => None
    case Some(s) => Some(if |s| <= n then s else s[..n])
  }

  const PRODUCT_GROUP_LENGTH := 80

  /** The label expression of a section with a fixed one. */
  function KindLabel(kind: Kind, r: Record): Option<string> {
    match kind
    case Recipients => r.recipient
    case Senders => r.sender
    case Edrpou => r.edrpou
    case Trademarks => r.trademark
    case ProductGroups => Prefix(r.description, PRODUCT_GROUP_LENGTH)
    case OriginCountries => r.origin
    case DispatchCountries => r.dispatch
    case TradeCountries => r.trade
    case ProductCodes => r.productCode
  }

  /** The expression `build_rollups` inserts a (kind, level) pair with. */
  function BuiltLabel(kind: Kind, level: int): Label {
    (r: Record) =>
      if kind == ProductCodes && 0 <= level && level != 10 then Prefix(r.productCode, level) else KindLabel(kind, r)
  }

  /** The rows of `rollup_sections` with that kind and level. */
  ghost function SectionTable(records: seq<Record>, kind: Kind, level: int): GroupTable {
    if (kind, level) in BUILT_SECTIONS then TableOf(records, BuiltLabel(kind, level)) else map[]
  }

  function Clamp(n: int, low: int, high: int): int
    requires low <= high
  {
    if n < low then low else if n > high then high else n
  }

  /** `rollup_section_contract`: the level a section is stored under. */
  function StoredLevel(kind: Kind, hsLevel: nat): int {
    if kind != ProductCodes then 0 else if hsLevel >= 10 then 10 else Clamp(hsLevel, 2, 8)
  }

  /** `projection_section_grouping`: the expression the detail scan groups by. */
  function DetailLabel(kind: Kind, hsLevel: nat): Label {
    (r: Record) =>
      if kind == ProductCodes && hsLevel < 10 then Prefix(r.productCode, Clamp(hsLevel, 2, 8)) else KindLabel(kind, r)
  }

  /** Every section a query can ask for, at any level, was built, with the detail's labels. */
  lemma EverySectionIsBuilt(kind: Kind, hsLevel: nat)
    ensures (kind, StoredLevel(kind, hsLevel)) in BUILT_SECTIONS
    ensures forall r :: BuiltLabel(kind, StoredLevel(kind, hsLevel))(r) == DetailLabel(kind, hsLevel)(r)
  {
    hide Prefix, KindLabel;
    var level := StoredLevel(kind, hsLevel);
    var at := if kind == ProductCodes then (if level == 10 then 15 else level + 6)
      else match kind
        case Recipients => 0 case Senders => 1 case Edrpou => 2 case Trademarks => 3 case ProductGroups => 4
        case OriginCountries => 5 case DispatchCountries => 6 case _ => 7;
    assert BUILT_SECTIONS[at] == (kind, level);
  }
}
