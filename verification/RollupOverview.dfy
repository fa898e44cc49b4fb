/** `rollup_overview`, the check that ends the build, and the all-years rows. */
module RollupOverview {
  import opened Basics
  import opened Sql
  import opened Records
  import opened Measures
  import opened Modes
  import opened RollupTables

  datatype OverviewCells = OverviewCells(
    rows: nat, declarations: nat, senders: nat, recipients: nat, edrpou: nat, trademarks: nat,
    productCodes: nat, origins: nat, dispatches: nat, trades: nat, quantity: real)

  datatype OverviewRow = OverviewRow(cells: OverviewCells, money: MoneyMode, weight: WeightMode)

  const NO_CELLS := OverviewCells(0, 0, 0, 0, 0, 0, 0, 0, 0, 0, 0.0)

  type OverviewTable = map<(Scope, int), OverviewRow>

  /** The detail scan's overview query. */
  ghost function OverviewOf(rows: seq<Record>): OverviewCells {
    OverviewCells(|rows|, Distinct(rows, DeclarationOf),
      Distinct(rows, (r: Record) => r.sender), Distinct(rows, (r: Record) => r.recipient), Distinct(rows, EdrpouOf),
      Distinct(rows, (r: Record) => r.trademark), Distinct(rows, (r: Record) => r.productCode),
      Distinct(rows, (r: Record) => r.origin), Distinct(rows, (r: Record) => r.dispatch),
      Distinct(rows, (r: Record) => r.trade), Total(rows, QuantityOf))
  }

  ghost function RollupOverviewCells(rows: seq<Row>): OverviewCells {
    OverviewCells(|rows|, Distinct(rows, (x: Row) => x.record.declaration),
      Distinct(rows, (x: Row) => x.record.sender), Distinct(rows, (x: Row) => x.record.recipient),
      Distinct(rows, (x: Row) => x.record.edrpou), Distinct(rows, (x: Row) => x.record.trademark),
      Distinct(rows, (x: Row) => x.record.productCode), Distinct(rows, (x: Row) => x.record.origin),
      Distinct(rows, (x: Row) => x.record.dispatch), Distinct(rows, (x: Row) => x.record.trade),
      Total(rows, (x: Row) => x.record.quantity))
  }

  ghost function OverviewRowOf(rows: seq<Row>): OverviewRow {
    var records := Mapped(rows, RecordOf);
    OverviewRow(RollupOverviewCells(rows), MonetaryMode(records), WeightModeOf(records))
  }

  ghost function SliceKeys(expanded: seq<Row>): set<(Scope, int)> {
    set row <- expanded :: (row.scope, row.yearKey)
  }

  /** `GROUP BY record_scope, year_key`. */
  ghost function GroupedOverview(records: seq<Record>): OverviewTable {
    map k | k in SliceKeys(RollupExpanded(records)) :: OverviewRowOf(Slice(records, k.0, k.1))
  }

  /** The empty rows inserted for scopes that have no all-years row yet. */
  function MissingScopes(grouped: OverviewTable): OverviewTable {
    map k: (Scope, int) | k in {(Canonical, 0), (Occurrences, 0)} && k !in grouped ::
      OverviewRow(NO_CELLS, NoMoney, NoWeight)
  }

  ghost function OverviewTableOf(records: seq<Record>): OverviewTable {
    var grouped := GroupedOverview(records);
    grouped + MissingScopes(grouped)
  }

  lemma SliceKeyMembers(records: seq<Record>, scope: Scope, yearKey: int)
    ensures (scope, yearKey) in SliceKeys(RollupExpanded(records)) <==> Slice(records, scope, yearKey) != []
    ensures Slice(records, scope, yearKey) == [] <==> Selected(records, scope, yearKey) == []
  {
    hide RollupExpanded, Selected, Where;
    var expanded, slice := RollupExpanded(records), Slice(records, scope, yearKey);
    forall row ensures row in slice <==> row in expanded && row.scope == scope && row.yearKey == yearKey {
      WhereMembers(expanded, InSliceOf(scope, yearKey), row);
    }
    SliceIsSelection(records, scope, yearKey);
    if slice != [] {
      assert slice[0] in slice;
    }
  }

  lemma OverviewCellsAre(rows: seq<Row>)
    ensures RollupOverviewCells(rows) == OverviewOf(Mapped(rows, RecordOf))
  {
    hide Distinct, Total, Mapped;
    SameDistinct(rows, RecordOf, (x: Row) => x.record.declaration, DeclarationOf);
    SameDistinct(rows, RecordOf, (x: Row) => x.record.sender, (r: Record) => r.sender);
    SameDistinct(rows, RecordOf, (x: Row) => x.record.recipient, (r: Record) => r.recipient);
    SameDistinct(rows, RecordOf, (x: Row) => x.record.edrpou, EdrpouOf);
    SameDistinct(rows, RecordOf, (x: Row) => x.record.trademark, (r: Record) => r.trademark);
    SameDistinct(rows, RecordOf, (x: Row) => x.record.productCode, (r: Record) => r.productCode);
    SameDistinct(rows, RecordOf, (x: Row) => x.record.origin, (r: Record) => r.origin);
    SameDistinct(rows, RecordOf, (x: Row) => x.record.dispatch, (r: Record) => r.dispatch);
    SameDistinct(rows, RecordOf, (x: Row) => x.record.trade, (r: Record) => r.trade);
    SameTotal(rows, RecordOf, (x: Row) => x.record.quantity, QuantityOf);
    SameColumn(rows, RecordOf, (x: Row) => x.record.quantity, QuantityOf);
  }

  lemma NothingToSee()
    ensures OverviewOf([]) == NO_CELLS && MonetaryMode([]) == NoMoney && WeightModeOf([]) == NoWeight
  {
    hide ValueUnstated, LacksKg, OnlyUsd;
  }

  /** The overview row of a scope and year holds the detail scan's overview; when there is
      no row the scan finds nothing, and never for the all-years key. */
  lemma OverviewIsDetail(records: seq<Record>, scope: Scope, yearKey: int)
    ensures var table, selected := OverviewTableOf(records), Selected(records, scope, yearKey);
      && ((scope, yearKey) in table ==>
            table[(scope, yearKey)] == OverviewRow(OverviewOf(selected), MonetaryMode(selected), WeightModeOf(selected)))
      && ((scope, yearKey) !in table ==> selected == [] && yearKey != 0)
  {
    hide Slice, Selected, SliceKeys, RollupOverviewCells, OverviewOf, MonetaryMode, WeightModeOf;
    SliceKeyMembers(records, scope, yearKey);
    SliceIsSelection(records, scope, yearKey);
    OverviewCellsAre(Slice(records, scope, yearKey));
    NothingToSee();
    var grouped := GroupedOverview(records);
    assert scope == Canonical || scope == Occurrences;
    assert (scope, yearKey) in MissingScopes(grouped) <==> yearKey == 0 && (scope, yearKey) !in grouped;
  }

  // ---------- validation ----------

  /** `validate_rollups`. */
  ghost function ValidateRollups(records: seq<Record>, table: OverviewTable): Result<()> {
    if (Occurrences, 0) !in table || (Canonical, 0) !in table then Err("no overview row")
    else if |records| != table[(Occurrences, 0)].cells.rows ||
            |Where(records, IsCanonical)| != table[(Canonical, 0)].cells.rows then Err("rollup validation failed")
    else Ok(())
  }

  /** Validation succeeds whatever the records, empty tables and literal year 0 included. */
  lemma RollupsValidate(records: seq<Record>)
    ensures ValidateRollups(records, OverviewTableOf(records)) == Ok(())
  {
    hide OverviewTableOf, OverviewOf, MonetaryMode, WeightModeOf;
    assert OverviewOf(Selected(records, Occurrences, 0)).rows == |Selected(records, Occurrences, 0)| &&
      OverviewOf(Selected(records, Canonical, 0)).rows == |Selected(records, Canonical, 0)| by {
      RowsOfOverview(Selected(records, Occurrences, 0));
      RowsOfOverview(Selected(records, Canonical, 0));
    }
    OverviewIsDetail(records, Occurrences, 0);
    OverviewIsDetail(records, Canonical, 0);
    WhereAll(records, Selects(Occurrences, 0));
    WhereCongruent(records, Selects(Canonical, 0), IsCanonical);
  }

  lemma RowsOfOverview(rows: seq<Record>)
    ensures OverviewOf(rows).rows == |rows|
  {
  }

  /** The inserted rows never repeat a grouped one, so each scope has one all-years row,
      and each record in scope is in the view's all-years slice exactly once. */
  lemma AllYearsOnce(records: seq<Record>, scope: Scope)
    ensures MissingScopes(GroupedOverview(records)).Keys !! GroupedOverview(records).Keys
    ensures (scope, 0) in OverviewTableOf(records)
    ensures |Slice(records, scope, 0)| == |Where(records, r => InScope(r, scope))|
  {
    hide RollupExpanded, OverviewOf, MonetaryMode, WeightModeOf, Where, Mapped, OverviewRowOf;
    OverviewIsDetail(records, scope, 0);
    SliceIsSelection(records, scope, 0);
    SameColumn(Slice(records, scope, 0), RecordOf, (x: Row) => x.record.quantity, QuantityOf);
    WhereCongruent(records, Selects(scope, 0), r => InScope(r, scope));
  }
}
