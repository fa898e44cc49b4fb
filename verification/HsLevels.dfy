/** Product groups at different HS levels: a coarser group's additive columns are the sums
    of the finer groups that share its prefix. */
module HsLevels {
  import opened Basics
  import opened Sql
  import opened Records
  import opened Measures
  import opened RollupTables

  /** The finer labels a coarser one stands for. */
  ghost function FinerLabels(fine: map<string, GroupRow>, coarse: int, l: string): set<string> {
    set f <- fine | 0 <= coarse && Prefix(Some(f), coarse) == Some(l)
  }

  function CellsAt(fine: map<string, GroupRow>, f: string): Cells {
    if f in fine then fine[f].cells else EMPTY_CELLS
  }

  ghost function SumOfCells(fine: map<string, GroupRow>, labels: set<string>, column: Cells -> real): real {
    SumOver(labels, f => column(CellsAt(fine, f)))
  }

  ghost function CountOfCells(fine: map<string, GroupRow>, labels: set<string>, column: Cells -> nat): nat {
    CountOver(labels, f => column(CellsAt(fine, f)))
  }

  /** A stored HS level, with the whole code at 10. */
  predicate IsLevel(level: int) {
    2 <= level <= 8 || level == 10
  }

  function CodeAt(level: int): Label {
    BuiltLabel(ProductCodes, level)
  }

  function GroupLabel(level: int, r: Record): string {
    Coalesce(CodeAt(level)(r), "")
  }

  ghost function Codes(records: seq<Record>, level: int, scope: Scope, yearKey: int): map<string, GroupRow> {
    Read(SectionTable(records, ProductCodes, level), scope, yearKey)
  }

  lemma PrefixOfPrefix(x: Option<string>, a: nat, b: nat)
    requires a <= b
    ensures Prefix(Prefix(x, b), a) == Prefix(x, a)
  {
    if x.Some? && |x.value| > b {
      assert x.value[..b][..a] == x.value[..a];
    }
  }

  lemma LevelIsBuilt(level: int)
    requires IsLevel(level)
    ensures (ProductCodes, level) in BUILT_SECTIONS
  {
    hide BuiltLabel, DetailLabel;
    EverySectionIsBuilt(ProductCodes, level);
  }

  /** The code at the coarser level is the prefix of the code at the finer one. */
  lemma CoarseFromFine(r: Record, coarse: int, fine: int)
    requires IsLevel(coarse) && IsLevel(fine) && coarse < fine
    ensures CodeAt(coarse)(r) == Prefix(CodeAt(fine)(r), coarse)
    ensures CodeAt(fine)(r) == Some("") <==> CodeAt(coarse)(r) == Some("")
  {
    if fine < 10 {
      PrefixOfPrefix(r.productCode, coarse, fine);
    }
  }

  /** The records behind one coarse group, split by their finer label, lose nothing. */
  lemma FineGroupsOfCoarse(rows: seq<Record>, coarse: int, fine: int, l: string, labels: set<string>)
    requires IsLevel(coarse) && IsLevel(fine) && coarse < fine && l != ""
    requires labels == set f <- Labels(rows, CodeAt(fine)) | Prefix(Some(f), coarse) == Some(l)
    ensures var group := Where(rows, Labelled(CodeAt(coarse), l));
      && GroupsIn(group, r => GroupLabel(fine, r), labels) == group
      && (forall f <- labels :: Group(group, r => GroupLabel(fine, r), f) == Where(rows, Labelled(CodeAt(fine), f)))
  {
    hide CodeAt, Prefix;
    var here, key := Labelled(CodeAt(coarse), l), (r: Record) => GroupLabel(fine, r);
    var group := Where(rows, here);
    forall r ensures CodeAt(coarse)(r) == Prefix(CodeAt(fine)(r), coarse)
      ensures CodeAt(fine)(r) == Some("") <==> CodeAt(coarse)(r) == Some("")
    {
      CoarseFromFine(r, coarse, fine);
    }
    forall r | r in group ensures key(r) in labels {
      WhereMembers(rows, here, r);
      FineLabelOf(rows, r, coarse, fine, l);
    }
    AllGroups(group, key, labels);
    forall f | f in labels ensures Group(group, key, f) == Where(rows, Labelled(CodeAt(fine), f)) {
      FineGroup(rows, coarse, fine, l, f);
    }
  }

  lemma FineGroup(rows: seq<Record>, coarse: int, fine: int, l: string, f: string)
    requires IsLevel(coarse) && IsLevel(fine) && coarse < fine && l != ""
    requires Prefix(Some(f), coarse) == Some(l)
    ensures Group(Where(rows, Labelled(CodeAt(coarse), l)), r => GroupLabel(fine, r), f) ==
      Where(rows, Labelled(CodeAt(fine), f))
  {
    hide CodeAt, Prefix;
    var here, mine, key := Labelled(CodeAt(coarse), l), Labelled(CodeAt(fine), f), (r: Record) => GroupLabel(fine, r);
    forall r ensures mine(r) == (here(r) && key(r) == f) {
      CoarseFromFine(r, coarse, fine);
      assert Prefix(None, coarse) == None by {
        PrefixOfNull(coarse);
      }
    }
    GroupIsWhere(rows, here, key, f, mine);
  }

  lemma PrefixOfNull(n: nat)
    ensures Prefix(None, n) == None
  {
  }

  lemma FineLabelOf(rows: seq<Record>, r: Record, coarse: int, fine: int, l: string)
    requires IsLevel(coarse) && IsLevel(fine) && coarse < fine && l != ""
    requires r in rows && CodeAt(coarse)(r) == Some(l)
    ensures GroupLabel(fine, r) in Labels(rows, CodeAt(fine)) && Prefix(Some(GroupLabel(fine, r)), coarse) == Some(l)
  {
    CoarseFromFine(r, coarse, fine);
    hide CodeAt, Labels;
    assert CodeAt(fine)(r).Some?;
    LabelMembers(rows, CodeAt(fine), GroupLabel(fine, r));
  }

  /** The additive columns. */
  ghost predicate AddsUp(fine: map<string, GroupRow>, labels: set<string>, c: Cells) {
    && CountOfCells(fine, labels, (x: Cells) => x.rows) == c.rows
    && SumOfCells(fine, labels, (x: Cells) => x.totalValue) == c.totalValue
    && SumOfCells(fine, labels, (x: Cells) => x.netKg) == c.netKg
    && SumOfCells(fine, labels, (x: Cells) => x.grossKg) == c.grossKg
    && SumOfCells(fine, labels, (x: Cells) => x.quantity) == c.quantity
    && SumOfCells(fine, labels, (x: Cells) => x.pairedValue) == c.pairedValue
    && SumOfCells(fine, labels, (x: Cells) => x.pairedKg) == c.pairedKg
    && CountOfCells(fine, labels, (x: Cells) => x.valuedRows) == c.valuedRows
    && CountOfCells(fine, labels, (x: Cells) => x.netRows) == c.netRows
    && CountOfCells(fine, labels, (x: Cells) => x.grossRows) == c.grossRows
    && SumOfCells(fine, labels, (x: Cells) => x.netSource) == c.netSource
    && SumOfCells(fine, labels, (x: Cells) => x.grossSource) == c.grossSource
    && CountOfCells(fine, labels, (x: Cells) => x.pairedRows) == c.pairedRows
    && SumOfCells(fine, labels, (x: Cells) => x.pairedSourceValue) == c.pairedSourceValue
    && SumOfCells(fine, labels, (x: Cells) => x.pairedSourceNet) == c.pairedSourceNet
  }

  lemma ColumnAddsUp(group: seq<Record>, key: Record -> string, fine: map<string, GroupRow>, labels: set<string>,
                     column: Cells -> real, source: Record -> Option<real>)
    requires GroupsIn(group, key, labels) == group
    requires forall f <- labels :: column(CellsAt(fine, f)) == Total(Group(group, key, f), source)
    ensures SumOfCells(fine, labels, column) == Total(group, source)
  {
    GroupsConserve(group, key, labels, source);
    SumOverCongruent(labels, f => column(CellsAt(fine, f)), f => Total(Group(group, key, f), source));
  }

  lemma CountAddsUp(group: seq<Record>, key: Record -> string, fine: map<string, GroupRow>, labels: set<string>,
                    column: Cells -> nat, source: Record -> Option<real>)
    requires GroupsIn(group, key, labels) == group
    requires forall f <- labels :: column(CellsAt(fine, f)) == CountOf(Group(group, key, f), source)
    ensures CountOfCells(fine, labels, column) == CountOf(group, source)
  {
    GroupsConserveCount(group, key, labels, source);
    CountOverCongruent(labels, f => column(CellsAt(fine, f)),
                       f => CountOf(Group(group, key, f), source));
  }

  lemma RowsAddUp(group: seq<Record>, key: Record -> string, fine: map<string, GroupRow>, labels: set<string>,
                  column: Cells -> nat)
    requires GroupsIn(group, key, labels) == group
    requires forall f <- labels :: column(CellsAt(fine, f)) == |Group(group, key, f)|
    ensures CountOfCells(fine, labels, column) == |group|
  {
    GroupsConserve(group, key, labels, ValueOf);
    CountOverCongruent(labels, f => column(CellsAt(fine, f)), f => |Group(group, key, f)|);
  }

  lemma CellsAddUp(group: seq<Record>, key: Record -> string, fine: map<string, GroupRow>, labels: set<string>)
    requires GroupsIn(group, key, labels) == group
    requires forall f <- labels :: f in fine && fine[f].cells == CellsOf(Group(group, key, f))
    ensures AddsUp(fine, labels, CellsOf(group))
  {
    hide Total, CountOf, Distinct, Group, GroupsIn, SumOfCells, CountOfCells;
    RowsAddUp(group, key, fine, labels, (x: Cells) => x.rows);
    ColumnAddsUp(group, key, fine, labels, (x: Cells) => x.totalValue, ValueOf);
    ColumnAddsUp(group, key, fine, labels, (x: Cells) => x.netKg, NetKg);
    ColumnAddsUp(group, key, fine, labels, (x: Cells) => x.grossKg, GrossKg);
    ColumnAddsUp(group, key, fine, labels, (x: Cells) => x.quantity, QuantityOf);
    ColumnAddsUp(group, key, fine, labels, (x: Cells) => x.pairedValue, PairedValueOf);
    ColumnAddsUp(group, key, fine, labels, (x: Cells) => x.pairedKg, PairedKgOf);
    CountAddsUp(group, key, fine, labels, (x: Cells) => x.valuedRows, ValueOf);
    CountAddsUp(group, key, fine, labels, (x: Cells) => x.netRows, NetOf);
    CountAddsUp(group, key, fine, labels, (x: Cells) => x.grossRows, GrossOf);
    ColumnAddsUp(group, key, fine, labels, (x: Cells) => x.netSource, NetOf);
    ColumnAddsUp(group, key, fine, labels, (x: Cells) => x.grossSource, GrossOf);
    CountAddsUp(group, key, fine, labels, (x: Cells) => x.pairedRows, PairedMarkOf);
    ColumnAddsUp(group, key, fine, labels, (x: Cells) => x.pairedSourceValue, PairedSourceValueOf);
    ColumnAddsUp(group, key, fine, labels, (x: Cells) => x.pairedSourceNet, PairedSourceNetOf);
  }

  /** In every scope and year, each stored group of a coarser level holds exactly the sum of
      the stored groups of a finer level that share its prefix, in every additive column. */
  lemma CoarserGroupsAddUp(records: seq<Record>, scope: Scope, yearKey: int, coarse: int, fine: int, l: string)
    requires IsLevel(coarse) && IsLevel(fine) && coarse < fine
    requires l in Codes(records, coarse, scope, yearKey)
    ensures var fines := Codes(records, fine, scope, yearKey);
      AddsUp(fines, FinerLabels(fines, coarse, l), Codes(records, coarse, scope, yearKey)[l].cells)
  {
    hide AddsUp, TableOf, Read, CellsOf, Selected, Where, Labels, Prefix, BuiltLabel, Labelled;
    var selected, fines := Selected(records, scope, yearKey), Codes(records, fine, scope, yearKey);
    LevelIsBuilt(coarse);
    LevelIsBuilt(fine);
    TableIsDetail(records, CodeAt(coarse), scope, yearKey);
    TableIsDetail(records, CodeAt(fine), scope, yearKey);
    LabelMembers(selected, CodeAt(coarse), l);
    var labels := FinerLabels(fines, coarse, l);
    assert fines.Keys == Labels(selected, CodeAt(fine));
    assert labels == set f <- Labels(selected, CodeAt(fine)) | Prefix(Some(f), coarse) == Some(l);
    FineGroupsOfCoarse(selected, coarse, fine, l, labels);
    CellsAddUp(Where(selected, Labelled(CodeAt(coarse), l)), r => GroupLabel(fine, r), fines, labels);
  }
}
