/** The two ways analytics are answered: by scanning the projected records, and from the
    rollup tables. `Rules` holds what this repository keeps elsewhere: the text matchers,
    the inheritance of measures and the price metrics. */
module Analytics {
  import opened Basics
  import opened Text
  import opened Sql
  import opened Ranking
  import opened Records
  import opened Measures
  import opened Modes
  import opened RollupTables
  import opened RollupOverview

  // ---------- queries ----------

  /** `others` are the filters besides the year; `hasAdvanced` means a non-empty expression. */
  datatype Query = Query(text: string, year: string, others: seq<string>, hasAdvanced: bool, scope: Scope)

  datatype Subset = Subset(
    valuedRows: nat, totalValue: real, netRows: nat, netSource: real, gross: Option<(nat, real)>,
    pairedRows: nat, pairedValue: real, pairedNet: real)

  datatype Rules<!M, !P> = Rules(
    matchesText: (string, Record) -> bool,
    matchesFilter: (nat, string, Record) -> bool,
    inherited: (Measures, Subset) -> M,
    prices: seq<Record> -> P)

  function DigitsOf(s: string): (digits: string)
    ensures AllDigits(digits)
  {
    if s == "" then "" else (if IsDigit(s[0]) then [s[0]] else "") + DigitsOf(s[1..])
  }

  /** `parse_year`: the number written by the digits of the text, when there are four. */
  function ParseYear(s: string): Option<int> {
    var digits := DigitsOf(s);
    if |digits| == 4 then Some(DigitsValue(digits)) else None
  }

  /** `DuckFilter::from_query`. */
  predicate Matches<M, P>(rules: Rules<M, P>, q: Query, r: Record) {
    && InScope(r, q.scope)
    && (Trim(q.text) != "" ==> rules.matchesText(Trim(q.text), r))
    && (ParseYear(q.year).Some? ==> r.year == ParseYear(q.year))
    && (forall i :: 0 <= i < |q.others| && Trim(q.others[i]) != "" ==> rules.matchesFilter(i, Trim(q.others[i]), r))
  }

  function Filtered<M, P>(rules: Rules<M, P>, records: seq<Record>, q: Query): seq<Record> {
    Where(records, (r: Record) => Matches(rules, q, r))
  }

  /** `RollupSelector::from_query`: the year key a query without other conditions reads. */
  function Selector(q: Query): Option<int> {
    if Trim(q.text) != "" || q.hasAdvanced then None
    else if exists i :: 0 <= i < |q.others| && Trim(q.others[i]) != "" then None
    else if Trim(q.year) == "" then Some(0)
    else match ParseI64(Trim(q.year))
      case None => None
      case Some(year) => if year <= 0 then None else Some(year)
  }

  // ---------- answers ----------

  datatype Usd = Usd(total: real, perNetKg: Option<real>)

  datatype Overview = Overview(
    cells: OverviewCells, usdTotal: real, netKg: real, grossKg: real, usdPerNetKg: real,
    compatible: Option<Usd>, measures: Measures)

  datatype Month<M> = Month(
    month: string, rows: nat, declarations: nat, usdTotal: real, netKg: real, compatible: Option<Usd>, measures: M)

  datatype GroupAnswer<M> = GroupAnswer(
    name: string, rows: nat, declarations: nat, companies: nat, usdTotal: real, netKg: real, grossKg: real,
    quantity: real, share: real, usdPerNetKg: real, compatible: Option<Usd>, measures: M)

  datatype Section<M> = Section(kind: Kind, rows: seq<GroupAnswer<M>>)

  datatype Tab = NoTab | Companies | Products | Countries | PricesTab

  datatype Answer<M, P> = Answer(
    overview: Overview, months: seq<Month<M>>, sections: seq<Section<M>>, prices: Option<P>)

  /** `projection_usd_compat`. */
  ghost function UsdOf(m: Measures): Option<Usd> {
    match CompatibleUsdTotal(m)
    case None => None
    case Some(total) => Some(Usd(total, CompatibleUsdPerNetKg(m)))
  }

  /** The overview both engines assemble from their own counts and the query's measures. */
  ghost function OverviewFrom(cells: OverviewCells, m: Measures): Overview {
    Overview(cells, Coalesce(CompatibleUsdTotal(m), 0.0), TotalKg(m.netWeights), TotalKg(m.grossWeights),
             Coalesce(CompatibleUsdPerNetKg(m), 0.0), UsdOf(m), m)
  }

  /** `inherited_projection_usd`. */
  function InheritedUsd(queryIsUsd: bool, total: real, pairedValue: real, pairedKg: real): Option<Usd> {
    if queryIsUsd then Some(Usd(total, Ratio(pairedValue, pairedKg))) else None
  }

  function UsdTotal(usd: Option<Usd>): real {
    if usd.Some? then usd.value.total else 0.0
  }

  function SubsetOf(c: Cells, gross: Option<(nat, real)>): Subset {
    Subset(c.valuedRows, c.totalValue, c.netRows, c.netSource, gross, c.pairedRows, c.pairedSourceValue, c.pairedSourceNet)
  }

  /** A month row; `money` is the column the engine reads its USD total from. */
  ghost function MonthFrom<M, P>(rules: Rules<M, P>, m: Measures, month: string, c: Cells, money: real): Month<M> {
    var usd := InheritedUsd(CompatibleUsdTotal(m).Some?, money, c.pairedValue, c.pairedKg);
    Month(month, c.rows, c.declarations, UsdTotal(usd), c.netKg, usd, rules.inherited(m, SubsetOf(c, None)))
  }

  const EPSILON: real := 1.0 / 4503599627370496.0

  function Quotient(n: real, d: real): real {
    if -EPSILON < d < EPSILON then 0.0 else n / d
  }

  ghost function GroupFrom<M, P>(rules: Rules<M, P>, o: Overview, name: string, c: Cells, money: real): GroupAnswer<M> {
    var usd := InheritedUsd(o.compatible.Some?, money, c.pairedValue, c.pairedKg);
    var shareTotal := MoneyIn(o.measures.currencies);
    var share :=
      if shareTotal > 0.0 then Quotient(c.totalValue * 100.0, shareTotal)
      else if o.netKg > 0.0 then Quotient(c.netKg * 100.0, o.netKg)
      else Quotient(c.rows as real * 100.0, o.cells.rows as real);
    GroupAnswer(name, c.rows, c.declarations, c.companies, UsdTotal(usd), c.netKg, c.grossKg, c.quantity, share,
                if usd.Some? then Coalesce(usd.value.perNetKg, 0.0) else 0.0, usd,
                rules.inherited(o.measures, SubsetOf(c, Some((c.grossRows, c.grossSource)))))
  }

  // ---------- order and limits ----------

  function CellsIn(groups: map<string, Cells>, l: string): Cells {
    if l in groups then groups[l] else EMPTY_CELLS
  }

  /** `ORDER BY total_value DESC, total_net_kg DESC, rows_count DESC, label`. */
  predicate RanksBefore(groups: map<string, Cells>, a: string, b: string) {
    var x, y := CellsIn(groups, a), CellsIn(groups, b);
    x.totalValue > y.totalValue || (x.totalValue == y.totalValue && (
      x.netKg > y.netKg || (x.netKg == y.netKg && (
        x.rows > y.rows || (x.rows == y.rows && Before(a, b))))))
  }

  lemma RankingIsTotal(groups: map<string, Cells>)
    ensures IsStrictTotal(groups.Keys, (a, b) => RanksBefore(groups, a, b))
  {
    hide CellsIn, Before;
    forall a, b ensures !Before(a, a) && (a == b || Before(a, b) || Before(b, a)) {
      BeforeIsTotal(a, b);
    }
    forall a, b, c | Before(a, b) && Before(b, c) ensures Before(a, c) {
      BeforeIsTransitive(a, b, c);
    }
  }

  lemma MonthsAreTotal(months: set<string>)
    ensures IsStrictTotal(months, (a, b) => Before(b, a))
  {
    forall a, b ensures !Before(a, a) && (a == b || Before(a, b) || Before(b, a)) {
      BeforeIsTotal(a, b);
    }
    forall a, b, c | Before(a, b) && Before(b, c) ensures Before(a, c) {
      BeforeIsTransitive(a, b, c);
    }
  }

  function Reversed<T>(s: seq<T>): seq<T> {
    if s == [] then [] else Reversed(s[1..]) + [s[0]]
  }

  const MONTH_SERIES_LIMIT := 600

  /** The newest months the limit lets through, oldest first. */
  ghost function MonthSeries(months: set<string>): seq<string> {
    MonthsAreTotal(months);
    Reversed(UpTo(Ordered(months, (a, b) => Before(b, a)), MONTH_SERIES_LIMIT))
  }

  ghost function TopLabels(groups: map<string, Cells>, limit: nat): seq<string> {
    RankingIsTotal(groups);
    UpTo(Ordered(groups.Keys, (a, b) => RanksBefore(groups, a, b)), Clamp(limit, 1, 20000))
  }

  /** More money, or as much with more weight, or as much of both with at least as many rows. */
  predicate NoLess(x: Cells, y: Cells) {
    && x.totalValue >= y.totalValue
    && (x.totalValue == y.totalValue ==> x.netKg >= y.netKg)
    && (x.totalValue == y.totalValue && x.netKg == y.netKg ==> x.rows >= y.rows)
  }

  lemma RankedIsNoLess(groups: map<string, Cells>, a: string, b: string)
    requires a in groups && b in groups && RanksBefore(groups, a, b)
    ensures NoLess(groups[a], groups[b])
  {
  }

  /** The listed groups are the best ones, in order, as many as the limit allows. */
  lemma TopLabelsAreTheBest(groups: map<string, Cells>, limit: nat)
    ensures var top := TopLabels(groups, limit);
      && |top| == Clamp(|groups|, 0, Clamp(limit, 1, 20000))
      && (forall a <- top :: a in groups)
      && (forall i, j :: 0 <= i < j < |top| ==> RanksBefore(groups, top[i], top[j]))
      && (forall a <- top, b <- groups :: b !in top ==> RanksBefore(groups, a, b) && NoLess(groups[a], groups[b]))
  {
    hide RanksBefore, NoLess;
    RankingIsTotal(groups);
    forall a, b | a in groups && b in groups && RanksBefore(groups, a, b) ensures NoLess(groups[a], groups[b]) {
      RankedIsNoLess(groups, a, b);
    }
    var before := (a, b) => RanksBefore(groups, a, b);
    var all := Ordered(groups.Keys, before);
    OrderingHasAll(groups.Keys, before, all);
    FirstAreBest(groups.Keys, before, all, Clamp(limit, 1, 20000));
    assert |groups| == |groups.Keys|;
  }

  lemma FirstAreBest(s: set<string>, before: (string, string) -> bool, all: seq<string>, n: nat)
    requires IsOrdering(s, before, all)
    ensures var first := UpTo(all, n);
      && (forall a <- first :: a in s)
      && (forall i, j :: 0 <= i < j < |first| ==> before(first[i], first[j]))
      && (forall a <- first, b <- s :: b !in first ==> before(a, b))
  {
    var first := UpTo(all, n);
    forall x ensures x in s <==> x in all {
      assert x in Elements(all) <==> x in all;
    }
    forall a, b | a in first && b in s && b !in first ensures before(a, b) {
      var i :| 0 <= i < |first| && first[i] == a;
      var j :| 0 <= j < |all| && all[j] == b;
      assert forall k :: 0 <= k < |first| ==> first[k] == all[k] && first[k] != b;
    }
  }

  lemma {:induction false} OrderingHasAll(s: set<string>, before: (string, string) -> bool, all: seq<string>)
    requires IsStrictTotal(s, before) && IsOrdering(s, before, all)
    ensures |all| == |s|
  {
    if all == [] {
      assert forall x :: x !in Elements(all);
      assert s == {};
    } else {
      assert all[0] in Elements(all);
      OrderingOfRest(s, before, all);
      var rest := s - {all[0]};
      assert forall a <- rest :: a in s;
      OrderingHasAll(rest, before, all[1..]);
    }
  }

  lemma {:induction false} ReversedAt<T>(s: seq<T>, i: nat)
    requires i < |s|
    ensures |Reversed(s)| == |s| && Reversed(s)[i] == s[|s| - 1 - i]
  {
    if |s| > 1 {
      ReversedAt(s[1..], if i < |s| - 1 then i else 0);
    }
  }

  lemma ReversedAscends(first: seq<string>)
    requires forall i, j :: 0 <= i < j < |first| ==> Before(first[j], first[i])
    ensures |Reversed(first)| == |first|
    ensures forall i, j :: 0 <= i < j < |first| ==> Before(Reversed(first)[i], Reversed(first)[j])
  {
    hide Before;
    if first != [] {
      ReversedAt(first, 0);
    }
    forall i, j | 0 <= i < j < |first| ensures Before(Reversed(first)[i], Reversed(first)[j]) {
      ReversedAt(first, i);
      ReversedAt(first, j);
    }
  }

  /** The series runs from the oldest shown month to the newest, and every month that is
      not shown is older than all that are. */
  lemma MonthSeriesIsNewest(months: set<string>)
    ensures var shown := MonthSeries(months);
      && |shown| == Clamp(|months|, 0, MONTH_SERIES_LIMIT)
      && (forall m <- shown :: m in months)
      && (forall i, j :: 0 <= i < j < |shown| ==> Before(shown[i], shown[j]))
      && (forall m <- shown, n <- months :: n !in shown ==> Before(n, m))
  {
    hide Before;
    MonthsAreTotal(months);
    var newerFirst := (a, b) => Before(b, a);
    var all := Ordered(months, newerFirst);
    OrderingHasAll(months, newerFirst, all);
    FirstAreBest(months, newerFirst, all, MONTH_SERIES_LIMIT);
    var first := UpTo(all, MONTH_SERIES_LIMIT);
    ReversedAscends(first);
    forall m ensures m in Reversed(first) <==> m in first {
      ReversedHas(first, m);
    }
  }

  lemma {:induction false} ReversedHas<T>(s: seq<T>, x: T)
    ensures x in Reversed(s) <==> x in s
  {
    if s != [] {
      ReversedHas(s[1..], x);
      assert x in s <==> x == s[0] || x in s[1..];
    }
  }

  // ---------- the two engines ----------

  function MonthOf(r: Record): Option<string> {
    r.month
  }

  function TabKinds(tab: Tab): seq<Kind> {
    match tab
    case Companies => [Edrpou, Recipients, Senders]
    case Products => [ProductCodes, Trademarks, ProductGroups]
    case Countries => [OriginCountries, DispatchCountries, TradeCountries]
    case _ => []
  }

  ghost function DetailMonths<M, P>(rules: Rules<M, P>, rows: seq<Record>, m: Measures): seq<Month<M>> {
    var groups := DetailGroups(rows, MonthOf);
    Mapped(MonthSeries(groups.Keys), l => MonthFrom(rules, m, l, CellsIn(groups, l), CellsIn(groups, l).totalValue))
  }

  ghost function DetailSection<M, P>(rules: Rules<M, P>, rows: seq<Record>, o: Overview, kind: Kind, hsLevel: nat,
                                     limit: nat): Section<M> {
    var groups := DetailGroups(rows, DetailLabel(kind, hsLevel));
    Section(kind, Mapped(TopLabels(groups, limit),
                         l => GroupFrom(rules, o, l, CellsIn(groups, l), CellsIn(groups, l).totalValue)))
  }

  /** `analytics_scoped_detail`. */
  ghost function DetailAnswer<M, P>(rules: Rules<M, P>, records: seq<Record>, q: Query, tab: Tab, hsLevel: nat,
                                    limit: nat): Answer<M, P> {
    var rows := Filtered(rules, records, q);
    var m := MeasuresOf(rows);
    var o := OverviewFrom(OverviewOf(rows), m);
    Answer(o, DetailMonths(rules, rows, m),
           Mapped(TabKinds(tab), kind => DetailSection(rules, rows, o, kind, hsLevel, limit)),
           if tab == PricesTab then Some(rules.prices(rows)) else None)
  }

  function CellsOfRows(table: map<string, GroupRow>): map<string, Cells> {
    map l | l in table :: table[l].cells
  }

  function UsdIn(table: map<string, GroupRow>, l: string): real {
    if l in table then Coalesce(table[l].usd, 0.0) else 0.0
  }

  ghost function RollupMonths<M, P>(rules: Rules<M, P>, records: seq<Record>, scope: Scope, key: int, m: Measures)
    : seq<Month<M>>
  {
    var table := Read(TableOf(records, MonthOf), scope, key);
    var groups := CellsOfRows(table);
    Mapped(MonthSeries(groups.Keys), l => MonthFrom(rules, m, l, CellsIn(groups, l), UsdIn(table, l)))
  }

  ghost function RollupSection<M, P>(rules: Rules<M, P>, records: seq<Record>, scope: Scope, key: int, o: Overview,
                                     kind: Kind, hsLevel: nat, limit: nat): Section<M> {
    var table := Read(SectionTable(records, kind, StoredLevel(kind, hsLevel)), scope, key);
    var groups := CellsOfRows(table);
    Section(kind, Mapped(TopLabels(groups, limit), l => GroupFrom(rules, o, l, CellsIn(groups, l), UsdIn(table, l))))
  }

  ghost function StoredOverview(records: seq<Record>, scope: Scope, key: int): OverviewCells {
    var table := OverviewTableOf(records);
    if (scope, key) in table then table[(scope, key)].cells else NO_CELLS
  }

  /** `analytics_from_rollups`: the measures and prices still come from a scan. */
  ghost function RollupAnswer<M, P>(rules: Rules<M, P>, records: seq<Record>, q: Query, key: int, tab: Tab,
                                    hsLevel: nat, limit: nat): Answer<M, P> {
    var rows := Filtered(rules, records, q);
    var m := MeasuresOf(rows);
    var o := OverviewFrom(StoredOverview(records, q.scope, key), m);
    Answer(o, RollupMonths(rules, records, q.scope, key, m),
           Mapped(TabKinds(tab), kind => RollupSection(rules, records, q.scope, key, o, kind, hsLevel, limit)),
           if tab == PricesTab then Some(rules.prices(rows)) else None)
  }

  /** `rollup_semantics_are_safe`: the modes of the row, or none when there is no row. */
  ghost predicate SemanticsAreSafe(records: seq<Record>, scope: Scope, key: int) {
    var table := OverviewTableOf(records);
    (scope, key) in table ==>
      table[(scope, key)].money in {SingleUsd, NoMoney} && table[(scope, key)].weight in {NormalizedKg, NoWeight}
  }

  /** `analytics_scoped_with_source`. */
  ghost function Answered<M, P>(rules: Rules<M, P>, records: seq<Record>, q: Query, tab: Tab, hsLevel: nat, limit: nat)
    : Answer<M, P>
  {
    var key := Selector(q);
    if key.Some? && SemanticsAreSafe(records, q.scope, key.value)
    then RollupAnswer(rules, records, q, key.value, tab, hsLevel, limit)
    else DetailAnswer(rules, records, q, tab, hsLevel, limit)
  }

  // ---------- the rollups refine the scan ----------

  lemma MonthMoneyAgrees<M, P>(rules: Rules<M, P>, m: Measures, l: string, c: Cells, a: real, b: real)
    requires CompatibleUsdTotal(m).Some? ==> a == b
    ensures MonthFrom(rules, m, l, c, a) == MonthFrom(rules, m, l, c, b)
  {
    hide CompatibleUsdTotal;
  }

  lemma GroupMoneyAgrees<M, P>(rules: Rules<M, P>, o: Overview, l: string, c: Cells, a: real, b: real)
    requires o.compatible.Some? ==> a == b
    ensures GroupFrom(rules, o, l, c, a) == GroupFrom(rules, o, l, c, b)
  {
    hide MoneyIn, Quotient;
  }

  /** The groups read from a table are the scan's, and wherever the query shows USD totals
      the nullable column holds the scan's plain sum. */
  lemma GroupsAgree(records: seq<Record>, labelOf: Label, scope: Scope, key: int)
    ensures var table, rows := Read(TableOf(records, labelOf), scope, key), Selected(records, scope, key);
      var groups := DetailGroups(rows, labelOf);
      && CellsOfRows(table) == groups
      && (CompatibleUsdTotal(MeasuresOf(rows)).Some? ==>
            forall l :: UsdIn(table, l) == CellsIn(groups, l).totalValue)
  {
    hide Read, TableOf, Selected, Labels, CompatibleUsdTotal, MeasuresOf, UsdColumn, Where;
    var table, rows := Read(TableOf(records, labelOf), scope, key), Selected(records, scope, key);
    var groups := DetailGroups(rows, labelOf);
    TableIsDetail(records, labelOf, scope, key);
    if CompatibleUsdTotal(MeasuresOf(rows)).Some? {
      forall l | l in groups ensures UsdIn(table, l) == CellsIn(groups, l).totalValue {
        var part := Where(rows, Labelled(labelOf, l));
        forall r | r in part ensures r in rows {
          WhereMembers(rows, Labelled(labelOf, l), r);
        }
        UsdColumnOfPart(rows, part);
        TotalValueIs(part);
      }
    }
  }

  lemma TotalValueIs(rows: seq<Record>)
    ensures CellsOf(rows).totalValue == Total(rows, ValueOf)
  {
    hide Total;
  }
}
