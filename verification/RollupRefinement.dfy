/** Answers from the rollup tables against answers from the detail scan. */
module RollupRefinement {
  import opened Basics
  import opened Text
  import opened Sql
  import opened Records
  import opened Measures
  import opened Modes
  import opened RollupTables
  import opened RollupOverview
  import opened Analytics

  lemma MonthsAgree<M, P>(rules: Rules<M, P>, records: seq<Record>, scope: Scope, key: int)
    ensures var rows := Selected(records, scope, key);
      RollupMonths(rules, records, scope, key, MeasuresOf(rows)) == DetailMonths(rules, rows, MeasuresOf(rows))
  {
    hide Read, TableOf, Selected, DetailGroups, MeasuresOf, CompatibleUsdTotal, MonthSeries, MonthFrom, CellsIn, UsdIn,
      CellsOfRows;
    var table, rows := Read(TableOf(records, MonthOf), scope, key), Selected(records, scope, key);
    var m, groups := MeasuresOf(rows), DetailGroups(rows, MonthOf);
    GroupsAgree(records, MonthOf, scope, key);
    var labels := MonthSeries(groups.Keys);
    var stored := l => MonthFrom(rules, m, l, CellsIn(groups, l), UsdIn(table, l));
    var scanned := l => MonthFrom(rules, m, l, CellsIn(groups, l), CellsIn(groups, l).totalValue);
    forall l ensures stored(l) == scanned(l) {
      MonthMoneyAgrees(rules, m, l, CellsIn(groups, l), UsdIn(table, l), CellsIn(groups, l).totalValue);
    }
    MappedCongruent(labels, stored, scanned);
  }

  /** Grouping depends on what the label expression computes, not on how it is written. */
  lemma SameLabels(rows: seq<Record>, a: Label, b: Label)
    requires forall r :: a(r) == b(r)
    ensures DetailGroups(rows, a) == DetailGroups(rows, b)
  {
    hide CellsOf, Where;
    forall l ensures l in Labels(rows, a) <==> l in Labels(rows, b)
      ensures Where(rows, Labelled(a, l)) == Where(rows, Labelled(b, l))
    {
      LabelMembers(rows, a, l);
      LabelMembers(rows, b, l);
      WhereCongruent(rows, Labelled(a, l), Labelled(b, l));
    }
  }

  lemma SectionsAgree<M, P>(rules: Rules<M, P>, records: seq<Record>, scope: Scope, key: int, o: Overview, kind: Kind,
                            hsLevel: nat, limit: nat)
    requires o.compatible.Some? <==> CompatibleUsdTotal(MeasuresOf(Selected(records, scope, key))).Some?
    ensures RollupSection(rules, records, scope, key, o, kind, hsLevel, limit) ==
      DetailSection(rules, Selected(records, scope, key), o, kind, hsLevel, limit)
  {
    hide Read, TableOf, Selected, DetailGroups, MeasuresOf, CompatibleUsdTotal, TopLabels, GroupFrom, CellsIn, UsdIn,
      CellsOfRows, BuiltLabel, DetailLabel, StoredLevel;
    var level, rows := StoredLevel(kind, hsLevel), Selected(records, scope, key);
    EverySectionIsBuilt(kind, hsLevel);
    SameLabels(rows, BuiltLabel(kind, level), DetailLabel(kind, hsLevel));
    GroupsAgree(records, BuiltLabel(kind, level), scope, key);
    var table := Read(TableOf(records, BuiltLabel(kind, level)), scope, key);
    var groups := DetailGroups(rows, DetailLabel(kind, hsLevel));
    var stored := l => GroupFrom(rules, o, l, CellsIn(groups, l), UsdIn(table, l));
    var scanned := l => GroupFrom(rules, o, l, CellsIn(groups, l), CellsIn(groups, l).totalValue);
    forall l ensures stored(l) == scanned(l) {
      GroupMoneyAgrees(rules, o, l, CellsIn(groups, l), UsdIn(table, l), CellsIn(groups, l).totalValue);
    }
    MappedCongruent(TopLabels(groups, limit), stored, scanned);
  }

  /** Whenever the scan reads the records of a scope and year key, the rollups answer as it
      does: overview, months, and every tab's ranked, limited and shared rows. */
  lemma AnswersAgree<M, P>(rules: Rules<M, P>, records: seq<Record>, q: Query, key: int, tab: Tab, hsLevel: nat,
                           limit: nat)
    requires Filtered(rules, records, q) == Selected(records, q.scope, key)
    ensures RollupAnswer(rules, records, q, key, tab, hsLevel, limit) ==
      DetailAnswer(rules, records, q, tab, hsLevel, limit)
  {
    hide Filtered, Selected, MeasuresOf, CompatibleUsdTotal, RollupMonths, DetailMonths, RollupSection, DetailSection,
      OverviewTableOf, OverviewOf, MonetaryMode, WeightModeOf, TabKinds;
    var rows := Selected(records, q.scope, key);
    var m := MeasuresOf(rows);
    OverviewIsDetail(records, q.scope, key);
    NothingToSee();
    assert StoredOverview(records, q.scope, key) == OverviewOf(rows);
    MonthsAgree(rules, records, q.scope, key);
    var o := OverviewFrom(OverviewOf(rows), m);
    var stored := kind => RollupSection(rules, records, q.scope, key, o, kind, hsLevel, limit);
    var scanned := kind => DetailSection(rules, rows, o, kind, hsLevel, limit);
    forall kind ensures stored(kind) == scanned(kind) {
      SectionsAgree(rules, records, q.scope, key, o, kind, hsLevel, limit);
    }
    MappedCongruent(TabKinds(tab), stored, scanned);
  }

  /** The totals of an overview are the plain sums its rollup row would hold: kilograms of
      every convertible weight, and the nullable USD column. */
  lemma OverviewTotalsAre(rows: seq<Record>, cells: OverviewCells)
    ensures var o := OverviewFrom(cells, MeasuresOf(rows));
      && o.netKg == Total(rows, NetKg) && o.grossKg == Total(rows, GrossKg)
      && o.usdTotal == Coalesce(UsdColumn(rows), 0.0)
      && (o.compatible.Some? <==> MonetaryMode(rows) == SingleUsd)
  {
    hide UsdColumn, MonetaryMode, CompatibleUsdTotal, CompatibleUsdPerNetKg, TotalKg, WeightTotals, InKg;
    UsdEncodingsAgree(rows);
    BucketsAddUpToKg(rows, NetOf);
    BucketsAddUpToKg(rows, GrossOf);
    TotalCongruent(rows, KgOf(NetOf), NetKg);
    TotalCongruent(rows, KgOf(GrossOf), GrossKg);
  }

  // ---------- what the rows of an answer say ----------

  /** A price per kilogram stands exactly when some row has a value and a positive weight, and
      is the value of all such rows over their kilograms. */
  ghost predicate IsPricePerKg(price: Option<real>, rows: seq<Record>) {
    var priced := Where(rows, HasKgPrice);
    && (price.Some? <==> Total(priced, NetKg) > 0.0)
    && (price.Some? ==> price.value * Total(priced, NetKg) == Total(priced, ValueOf))
  }

  /** The USD fields of an answer's row: there when the query is one USD cohort, and then the
      row's own money and price. */
  ghost predicate IsUsdOf(usd: Option<Usd>, rows: seq<Record>, isUsd: bool) {
    && (usd.Some? <==> isUsd)
    && (usd.Some? ==> usd.value.total == Total(rows, ValueOf) && IsPricePerKg(usd.value.perNetKg, rows))
  }

  ghost function SubsetIn(rows: seq<Record>, withGross: bool): Subset {
    var paired := Where(rows, HasPairedWeight);
    Subset(|Where(rows, (r: Record) => r.value.Some?)|, Total(rows, ValueOf),
           |Where(rows, (r: Record) => r.net.Some?)|, Total(rows, NetOf),
           if withGross then Some((|Where(rows, (r: Record) => r.gross.Some?)|, Total(rows, GrossOf))) else None,
           |paired|, Total(paired, ValueOf), Total(paired, NetOf))
  }

  ghost predicate IsMonthOf<M, P>(rules: Rules<M, P>, m: Measures, a: Month<M>, rows: seq<Record>, isUsd: bool) {
    && a.rows == |rows| && a.declarations == |Texts(rows, DeclarationOf)| && a.netKg == Total(rows, NetKg)
    && IsUsdOf(a.compatible, rows, isUsd)
    && a.usdTotal == (if isUsd then Total(rows, ValueOf) else 0.0)
    && a.measures == rules.inherited(m, SubsetIn(rows, false))
  }

  ghost predicate IsGroupOf<M, P>(rules: Rules<M, P>, m: Measures, a: GroupAnswer<M>, rows: seq<Record>, isUsd: bool) {
    && a.rows == |rows| && a.declarations == |Texts(rows, DeclarationOf)| && a.companies == |Texts(rows, EdrpouOf)|
    && a.netKg == Total(rows, NetKg) && a.grossKg == Total(rows, GrossKg) && a.quantity == Total(rows, QuantityOf)
    && IsUsdOf(a.compatible, rows, isUsd)
    && a.usdTotal == (if isUsd then Total(rows, ValueOf) else 0.0)
    && a.usdPerNetKg == (if isUsd then Coalesce(a.compatible.value.perNetKg, 0.0) else 0.0)
    && a.measures == rules.inherited(m, SubsetIn(rows, true))
  }

  ghost predicate IsOverviewOf(c: OverviewCells, rows: seq<Record>) {
    && c.rows == |rows| && c.quantity == Total(rows, QuantityOf)
    && c.declarations == |Texts(rows, DeclarationOf)| && c.edrpou == |Texts(rows, EdrpouOf)|
    && c.senders == |Texts(rows, (r: Record) => r.sender)| && c.recipients == |Texts(rows, (r: Record) => r.recipient)|
    && c.trademarks == |Texts(rows, (r: Record) => r.trademark)|
    && c.productCodes == |Texts(rows, (r: Record) => r.productCode)|
    && c.origins == |Texts(rows, (r: Record) => r.origin)| && c.dispatches == |Texts(rows, (r: Record) => r.dispatch)|
    && c.trades == |Texts(rows, (r: Record) => r.trade)|
  }

  /** The overview counts each column's distinct texts, and shows money and the price per
      kilogram of one USD cohort. */
  lemma OverviewHolds(rows: seq<Record>)
    ensures IsOverviewOf(OverviewOf(rows), rows)
    ensures var o := OverviewFrom(OverviewOf(rows), MeasuresOf(rows));
      && (o.compatible.Some? <==> IsUsdCohort(rows))
      && (o.compatible.Some? ==>
            && o.compatible.value.total == Total(rows, ValueOf) == o.usdTotal
            && IsPricePerKg(o.compatible.value.perNetKg, rows)
            && o.usdPerNetKg == Coalesce(o.compatible.value.perNetKg, 0.0))
  {
    hide Total, Distinct, Texts, MeasuresOf, CompatibleUsdPerNetKg, CompatibleUsdTotal, Where, IsUsdCohort, TotalKg;
    DistinctIs(rows, DeclarationOf);
    DistinctIs(rows, EdrpouOf);
    DistinctIs(rows, (r: Record) => r.sender);
    DistinctIs(rows, (r: Record) => r.recipient);
    DistinctIs(rows, (r: Record) => r.trademark);
    DistinctIs(rows, (r: Record) => r.productCode);
    DistinctIs(rows, (r: Record) => r.origin);
    DistinctIs(rows, (r: Record) => r.dispatch);
    DistinctIs(rows, (r: Record) => r.trade);
    CompatibleMeansCohort(rows);
    if IsUsdCohort(rows) {
      UsdPerNetKgIs(rows);
      PricedArePaired(rows);
      PriceOfPaired(rows);
    }
  }

  lemma PriceOfPaired(rows: seq<Record>)
    ensures var price := Ratio(Total(Paired(rows), ValueOf), Total(Paired(rows), NetKg));
      IsPricePerKg(if Paired(rows) == [] then None else price, rows)
  {
    PricedArePaired(rows);
    hide NetKg;
    var value, kg := Total(Paired(rows), ValueOf), Total(Paired(rows), NetKg);
    if kg > 0.0 {
      assert value / kg * kg == value;
    }
  }

  lemma RatioIsPrice(rows: seq<Record>)
    ensures var c := CellsOf(rows); IsPricePerKg(Ratio(c.pairedValue, c.pairedKg), rows)
  {
    hide CellsOf, HasKgPrice, HasPairedWeight, Total;
    CellsHold(rows);
    var c := CellsOf(rows);
    if c.pairedKg > 0.0 {
      assert c.pairedValue / c.pairedKg * c.pairedKg == c.pairedValue;
    }
  }

  lemma MonthHolds<M, P>(rules: Rules<M, P>, m: Measures, month: string, rows: seq<Record>)
    ensures var c := CellsOf(rows);
      IsMonthOf(rules, m, MonthFrom(rules, m, month, c, c.totalValue), rows, CompatibleUsdTotal(m).Some?)
  {
    hide CellsOf, Total, Where, CompatibleUsdTotal, IsPricePerKg, Texts, Ratio;
    CellsHold(rows);
    RatioIsPrice(rows);
    assert SubsetOf(CellsOf(rows), None) == SubsetIn(rows, false);
  }

  lemma GroupHolds<M, P>(rules: Rules<M, P>, o: Overview, name: string, rows: seq<Record>)
    ensures var c := CellsOf(rows);
      IsGroupOf(rules, o.measures, GroupFrom(rules, o, name, c, c.totalValue), rows, o.compatible.Some?)
  {
    hide CellsOf, Total, Where, IsPricePerKg, Texts, Ratio, MoneyIn, Quotient;
    CellsHold(rows);
    RatioIsPrice(rows);
    var c := CellsOf(rows);
    assert SubsetOf(c, Some((c.grossRows, c.grossSource))) == SubsetIn(rows, true);
  }

  /** Every month row of an answer is its month's records: counts, weights, money and price
      per kilogram. */
  lemma MonthsHold<M, P>(rules: Rules<M, P>, rows: seq<Record>, m: Measures)
    ensures forall a <- DetailMonths(rules, rows, m) ::
              a.month in Labels(rows, MonthOf) &&
              IsMonthOf(rules, m, a, Where(rows, Labelled(MonthOf, a.month)), CompatibleUsdTotal(m).Some?)
  {
    hide CellsOf, Where, Labels, CompatibleUsdTotal, IsMonthOf, MonthFrom, MonthSeries;
    var groups := DetailGroups(rows, MonthOf);
    var place := l => MonthFrom(rules, m, l, CellsIn(groups, l), CellsIn(groups, l).totalValue);
    MonthSeriesIsNewest(groups.Keys);
    assert DetailMonths(rules, rows, m) == Mapped(MonthSeries(groups.Keys), place);
    forall a | a in DetailMonths(rules, rows, m)
      ensures a.month in Labels(rows, MonthOf)
      ensures IsMonthOf(rules, m, a, Where(rows, Labelled(MonthOf, a.month)), CompatibleUsdTotal(m).Some?)
    {
      var l := MappedFrom(MonthSeries(groups.Keys), place, a);
      MonthName(rules, m, l, CellsIn(groups, l), CellsIn(groups, l).totalValue);
      MonthHolds(rules, m, l, Where(rows, Labelled(MonthOf, l)));
    }
  }

  lemma MonthName<M, P>(rules: Rules<M, P>, m: Measures, l: string, c: Cells, money: real)
    ensures MonthFrom(rules, m, l, c, money).month == l
  {
    hide CompatibleUsdTotal;
  }

  /** Every row of a section is its label's records. */
  lemma SectionsHold<M, P>(rules: Rules<M, P>, rows: seq<Record>, o: Overview, kind: Kind, hsLevel: nat, limit: nat)
    ensures forall a <- DetailSection(rules, rows, o, kind, hsLevel, limit).rows ::
              a.name in Labels(rows, DetailLabel(kind, hsLevel)) &&
              IsGroupOf(rules, o.measures, a, Where(rows, Labelled(DetailLabel(kind, hsLevel), a.name)),
                        o.compatible.Some?)
  {
    hide CellsOf, Where, Labels, DetailLabel, IsGroupOf, GroupFrom, TopLabels;
    var labelOf := DetailLabel(kind, hsLevel);
    var groups := DetailGroups(rows, labelOf);
    var place := l => GroupFrom(rules, o, l, CellsIn(groups, l), CellsIn(groups, l).totalValue);
    TopLabelsAreTheBest(groups, limit);
    assert DetailSection(rules, rows, o, kind, hsLevel, limit).rows == Mapped(TopLabels(groups, limit), place);
    forall a | a in DetailSection(rules, rows, o, kind, hsLevel, limit).rows
      ensures a.name in Labels(rows, labelOf)
      ensures IsGroupOf(rules, o.measures, a, Where(rows, Labelled(labelOf, a.name)), o.compatible.Some?)
    {
      var l := MappedFrom(TopLabels(groups, limit), place, a);
      GroupName(rules, o, l, CellsIn(groups, l), CellsIn(groups, l).totalValue);
      GroupHolds(rules, o, l, Where(rows, Labelled(labelOf, l)));
    }
  }

  lemma GroupName<M, P>(rules: Rules<M, P>, o: Overview, l: string, c: Cells, money: real)
    ensures GroupFrom(rules, o, l, c, money).name == l
  {
    hide MoneyIn, Quotient;
  }

  /** The overview's counter of a section's labels, where it has one. */
  function CounterOf(c: OverviewCells, kind: Kind, hsLevel: nat): Option<nat> {
    match kind
    case Recipients => Some(c.recipients)
    case Senders => Some(c.senders)
    case Edrpou => Some(c.edrpou)
    case Trademarks => Some(c.trademarks)
    case ProductGroups => None
    case OriginCountries => Some(c.origins)
    case DispatchCountries => Some(c.dispatches)
    case TradeCountries => Some(c.trades)
    case ProductCodes => if hsLevel >= 10 then Some(c.productCodes) else None
  }

  lemma LabelsAreTexts(rows: seq<Record>, labelOf: Label, column: Record -> Option<string>)
    requires forall r :: labelOf(r) == column(r)
    ensures |DetailGroups(rows, labelOf).Keys| == |Texts(rows, column)|
  {
    hide CellsOf, Where, Labels;
    forall l ensures l in Labels(rows, labelOf) <==> l in Texts(rows, column) {
      LabelMembers(rows, labelOf, l);
    }
    assert DetailGroups(rows, labelOf).Keys == Texts(rows, column);
  }

  /** Every section has as many groups as the overview counts in its column. */
  lemma SectionsMatchTheOverview(rows: seq<Record>, kind: Kind, hsLevel: nat)
    ensures CounterOf(OverviewOf(rows), kind, hsLevel).Some? ==>
      CounterOf(OverviewOf(rows), kind, hsLevel) == Some(|DetailGroups(rows, DetailLabel(kind, hsLevel)).Keys|)
  {
    hide DetailGroups, Texts, OverviewOf, MeasuresOf;
    OverviewHolds(rows);
    var labelOf := DetailLabel(kind, hsLevel);
    match kind
    case Recipients => LabelsAreTexts(rows, labelOf, (r: Record) => r.recipient);
    case Senders => LabelsAreTexts(rows, labelOf, (r: Record) => r.sender);
    case Edrpou => LabelsAreTexts(rows, labelOf, EdrpouOf);
    case Trademarks => LabelsAreTexts(rows, labelOf, (r: Record) => r.trademark);
    case OriginCountries => LabelsAreTexts(rows, labelOf, (r: Record) => r.origin);
    case DispatchCountries => LabelsAreTexts(rows, labelOf, (r: Record) => r.dispatch);
    case TradeCountries => LabelsAreTexts(rows, labelOf, (r: Record) => r.trade);
    case ProductCodes =>
      if hsLevel >= 10 {
        LabelsAreTexts(rows, labelOf, (r: Record) => r.productCode);
      }
    case ProductGroups =>
  }

  /** A label cut from a text: its beginning, as far as the length goes. */
  predicate IsCut(cut: string, text: Option<string>, length: nat) {
    text.Some? && cut <= text.value && |cut| == if |text.value| < length then |text.value| else length
  }

  /** Product groups are the beginnings of descriptions, product codes below ten digits the
      beginnings of codes. */
  lemma CutLabels(r: Record, hsLevel: nat, l: string)
    ensures DetailLabel(ProductGroups, hsLevel)(r) == Some(l) <==> IsCut(l, r.description, 80)
    ensures hsLevel < 10 ==> (DetailLabel(ProductCodes, hsLevel)(r) == Some(l) <==>
              IsCut(l, r.productCode, if hsLevel < 2 then 2 else if hsLevel > 8 then 8 else hsLevel))
  {
    hide Prefix;
    CutIs(r.description, 80, l);
    CutIs(r.productCode, Clamp(hsLevel, 2, 8), l);
  }

  lemma CutIs(text: Option<string>, length: nat, l: string)
    ensures Prefix(text, length) == Some(l) <==> IsCut(l, text, length)
  {
    if text.Some? && IsCut(l, text, length) {
      assert l == text.value[..|l|] && text.value[..|text.value|] == text.value;
    }
  }

  // ---------- shares ----------

  function LabelText(labelOf: Label): Record -> string {
    (r: Record) => Coalesce(labelOf(r), "")
  }

  lemma Percent(v: real, total: real)
    requires total > 0.0
    ensures v * 100.0 / total == Scaled(100.0 / total, v)
  {
    var f, x := 100.0 / total, v * 100.0 / total;
    assert f * total == 100.0 && x * total == v * 100.0;
    assert (x - f * v) * total == 0.0;
  }

  lemma {:induction false} SharesScale(keys: set<string>, values: string -> real, shares: string -> real, f: real)
    requires forall l <- keys :: shares(l) == Scaled(f, values(l))
    ensures SumOver(keys, shares) == Scaled(f, SumOver(keys, values))
    decreases |keys|
  {
    hide Scaled;
    if keys == {} {
      ScaledUnits(f);
    } else {
      var l :| l in keys;
      SharesScale(keys - {l}, values, shares, f);
      SumOverRemove(keys, values, l);
      SumOverRemove(keys, shares, l);
      ScaledSum(f, values(l), SumOver(keys - {l}, values));
    }
  }

  /** Shares add up when each is its value's part of a positive total. */
  lemma SharesOfColumn(keys: set<string>, values: string -> real, shares: string -> real, total: real)
    requires total > 0.0 && SumOver(keys, values) == total
    requires forall l <- keys :: shares(l) == Scaled(100.0 / total, values(l))
    ensures SumOver(keys, shares) == 100.0
  {
    hide Scaled;
    SharesScale(keys, values, shares, 100.0 / total);
    Percent(total, total);
  }

  lemma ShareIs<M, P>(rules: Rules<M, P>, o: Overview, l: string, c: Cells)
    requires MoneyIn(o.measures.currencies) <= 0.0
    ensures o.netKg >= EPSILON ==> GroupFrom(rules, o, l, c, 0.0).share == Scaled(100.0 / o.netKg, c.netKg)
    ensures o.netKg <= 0.0 && o.cells.rows > 0 ==>
      GroupFrom(rules, o, l, c, 0.0).share == Scaled(100.0 / (o.cells.rows as real), c.rows as real)
  {
    hide MoneyIn, InheritedUsd, SubsetOf, Scaled;
    if o.netKg >= EPSILON {
      Percent(c.netKg, o.netKg);
    } else if o.cells.rows > 0 {
      Percent(c.rows as real, o.cells.rows as real);
    }
  }

  /** Without positive money the shares are of the kilograms, and again add up. */
  lemma WeightSharesAddUp<M, P>(rules: Rules<M, P>, rows: seq<Record>, o: Overview, labelOf: Label)
    requires o == OverviewFrom(OverviewOf(rows), MeasuresOf(rows))
    requires Total(rows, ValueOf) <= 0.0 && Total(rows, NetKg) >= EPSILON
    requires forall r <- rows :: NullIfBlank(labelOf(r)).Some?
    ensures var groups := DetailGroups(rows, labelOf);
      SumOver(groups.Keys, l => GroupFrom(rules, o, l, CellsIn(groups, l), 0.0).share) == 100.0
  {
    hide MeasuresOf, MoneyIn, Total, CellsIn, DetailGroups, GroupFrom, NetKg, OverviewOf, Scaled;
    var groups := DetailGroups(rows, labelOf);
    var values := l => CellsIn(groups, l).netKg;
    var shares := l => GroupFrom(rules, o, l, CellsIn(groups, l), 0.0).share;
    ShareTotalIs(rows);
    OverviewTotalsAre(rows, OverviewOf(rows));
    forall l ensures shares(l) == Scaled(100.0 / Total(rows, NetKg), values(l)) {
      ShareIs(rules, o, l, CellsIn(groups, l));
    }
    LabelledKgAddUp(rows, labelOf);
    SharesOfColumn(groups.Keys, values, shares, Total(rows, NetKg));
  }

  /** Without positive money or weight they are of the rows. */
  lemma RowSharesAddUp<M, P>(rules: Rules<M, P>, rows: seq<Record>, o: Overview, labelOf: Label)
    requires o == OverviewFrom(OverviewOf(rows), MeasuresOf(rows)) && rows != []
    requires Total(rows, ValueOf) <= 0.0 && Total(rows, NetKg) <= 0.0
    requires forall r <- rows :: NullIfBlank(labelOf(r)).Some?
    ensures var groups := DetailGroups(rows, labelOf);
      SumOver(groups.Keys, l => GroupFrom(rules, o, l, CellsIn(groups, l), 0.0).share) == 100.0
  {
    hide MeasuresOf, MoneyIn, Total, CellsIn, DetailGroups, GroupFrom, NetKg, OverviewOf, Scaled;
    var groups := DetailGroups(rows, labelOf);
    var values := l => CellsIn(groups, l).rows as real;
    var shares := l => GroupFrom(rules, o, l, CellsIn(groups, l), 0.0).share;
    ShareTotalIs(rows);
    OverviewTotalsAre(rows, OverviewOf(rows));
    RowsOfOverview(rows);
    forall l ensures shares(l) == Scaled(100.0 / (|rows| as real), values(l)) {
      ShareIs(rules, o, l, CellsIn(groups, l));
    }
    LabelledRowsAddUp(rows, labelOf);
    SharesOfColumn(groups.Keys, values, shares, |rows| as real);
  }

  lemma LabelledKgAddUp(rows: seq<Record>, labelOf: Label)
    requires forall r <- rows :: NullIfBlank(labelOf(r)).Some?
    ensures var groups := DetailGroups(rows, labelOf);
      SumOver(groups.Keys, l => CellsIn(groups, l).netKg) == Total(rows, NetKg)
  {
    hide Total, Where, CellsOf, CellsIn, Group, GroupsIn, Labels, NetKg;
    var groups, key := DetailGroups(rows, labelOf), LabelText(labelOf);
    forall r | r in rows ensures key(r) in groups {
      LabelMembers(rows, labelOf, key(r));
    }
    GroupsConserve(rows, key, groups.Keys, NetKg);
    AllGroups(rows, key, groups.Keys);
    forall l | l in groups ensures CellsIn(groups, l).netKg == Total(Group(rows, key, l), NetKg) {
      GroupCells(rows, labelOf, l);
    }
    SumOverCongruent(groups.Keys, l => CellsIn(groups, l).netKg, l => Total(Group(rows, key, l), NetKg));
  }

  lemma GroupCells(rows: seq<Record>, labelOf: Label, l: string)
    requires l in DetailGroups(rows, labelOf)
    ensures var c, group := CellsIn(DetailGroups(rows, labelOf), l), Group(rows, LabelText(labelOf), l);
      c.netKg == Total(group, NetKg) && c.rows == |group|
  {
    hide Total, Where, Labels, NetKg, Distinct, CountOf;
    LabelMembers(rows, labelOf, l);
    GroupIs(rows, LabelText(labelOf), l, Labelled(labelOf, l));
  }

  function One(r: Record): Option<real> {
    Some(1.0)
  }

  lemma {:induction false} CountingOnes(rows: seq<Record>)
    ensures Total(rows, One) == |rows| as real
  {
    if rows != [] {
      CountingOnes(rows[1..]);
    }
  }

  lemma LabelledRowsAddUp(rows: seq<Record>, labelOf: Label)
    requires forall r <- rows :: NullIfBlank(labelOf(r)).Some?
    ensures var groups := DetailGroups(rows, labelOf);
      SumOver(groups.Keys, l => CellsIn(groups, l).rows as real) == |rows| as real
  {
    hide Total, Where, CellsOf, CellsIn, Group, GroupsIn, Labels, NetKg;
    var groups, key := DetailGroups(rows, labelOf), LabelText(labelOf);
    forall r | r in rows ensures key(r) in groups {
      LabelMembers(rows, labelOf, key(r));
    }
    GroupsConserve(rows, key, groups.Keys, One);
    AllGroups(rows, key, groups.Keys);
    CountingOnes(rows);
    forall l | l in groups ensures CellsIn(groups, l).rows as real == Total(Group(rows, key, l), One) {
      GroupCells(rows, labelOf, l);
      CountingOnes(Group(rows, key, l));
    }
    SumOverCongruent(groups.Keys, l => CellsIn(groups, l).rows as real, l => Total(Group(rows, key, l), One));
  }

  /** When every record has a label and the money total is positive, the shares of all the
      groups together are one hundred percent. */
  lemma SharesAddUp<M, P>(rules: Rules<M, P>, rows: seq<Record>, o: Overview, labelOf: Label)
    requires o.measures == MeasuresOf(rows) && Total(rows, ValueOf) >= EPSILON
    requires forall r <- rows :: NullIfBlank(labelOf(r)).Some?
    ensures var groups := DetailGroups(rows, labelOf);
      SumOver(groups.Keys, l => GroupFrom(rules, o, l, CellsIn(groups, l), 0.0).share) == 100.0
  {
    hide MeasuresOf, MoneyIn, Total, CellsIn, DetailGroups, Scaled, InheritedUsd, SubsetOf;
    var groups, total := DetailGroups(rows, labelOf), Total(rows, ValueOf);
    var values := l => CellsIn(groups, l).totalValue;
    var shares := l => GroupFrom(rules, o, l, CellsIn(groups, l), 0.0).share;
    ShareTotalIs(rows);
    forall l ensures shares(l) == Scaled(100.0 / total, values(l)) {
      Percent(values(l), total);
    }
    SharesScale(groups.Keys, values, shares, 100.0 / total);
    LabelledValuesAddUp(rows, labelOf);
    Percent(total, total);
  }

  lemma ShareTotalIs(rows: seq<Record>)
    ensures MoneyIn(MeasuresOf(rows).currencies) == Total(rows, ValueOf)
  {
    CurrencyBucketsConserve(rows);
  }

  lemma LabelledValuesAddUp(rows: seq<Record>, labelOf: Label)
    requires forall r <- rows :: NullIfBlank(labelOf(r)).Some?
    ensures var groups := DetailGroups(rows, labelOf);
      SumOver(groups.Keys, l => CellsIn(groups, l).totalValue) == Total(rows, ValueOf)
  {
    hide Total, Where, CellsOf, CellsIn, Group, GroupsIn, Labels;
    var groups, key := DetailGroups(rows, labelOf), LabelText(labelOf);
    forall r | r in rows ensures key(r) in groups {
      LabelMembers(rows, labelOf, key(r));
    }
    GroupsConserve(rows, key, groups.Keys, ValueOf);
    AllGroups(rows, key, groups.Keys);
    forall l | l in groups ensures CellsIn(groups, l).totalValue == Total(Group(rows, key, l), ValueOf) {
      GroupValue(rows, labelOf, l);
    }
    SumOverCongruent(groups.Keys, l => CellsIn(groups, l).totalValue, l => Total(Group(rows, key, l), ValueOf));
  }

  lemma GroupValue(rows: seq<Record>, labelOf: Label, l: string)
    requires l in DetailGroups(rows, labelOf)
    ensures CellsIn(DetailGroups(rows, labelOf), l).totalValue == Total(Group(rows, LabelText(labelOf), l), ValueOf)
  {
    hide Total, Where, CellsOf, Labels;
    LabelMembers(rows, labelOf, l);
    GroupIs(rows, LabelText(labelOf), l, Labelled(labelOf, l));
    TotalValueIs(Where(rows, Labelled(labelOf, l)));
  }

  // ---------- the two readings of a year ----------

  /** A year filter both parsers read alike: blank, or with exactly four digits. */
  predicate YearReadsTheSame(year: string) {
    Trim(year) == "" || |DigitsOf(year)| == 4
  }

  lemma {:induction false} DigitsConcat(a: string, b: string)
    ensures DigitsOf(a + b) == DigitsOf(a) + DigitsOf(b)
  {
    if a == "" {
      assert a + b == b;
    } else {
      assert (a + b)[0] == a[0] && (a + b)[1..] == a[1..] + b;
      DigitsConcat(a[1..], b);
    }
  }

  lemma {:induction false} SpacesHaveNoDigits(s: string)
    requires AllSpace(s)
    ensures DigitsOf(s) == ""
  {
    if s != "" {
      SpacesHaveNoDigits(s[1..]);
    }
  }

  lemma {:induction false} AllDigitsStay(s: string)
    requires AllDigits(s)
    ensures DigitsOf(s) == s
  {
    if s != "" {
      AllDigitsStay(s[1..]);
    }
  }

  lemma TrimKeepsDigits(s: string)
    ensures DigitsOf(Trim(s)) == DigitsOf(s)
  {
    hide TrimStart, TrimEnd;
    var a := TrimStartSplits(s);
    var b := TrimEndSplits(TrimStart(s));
    DigitsConcat(a, TrimStart(s));
    DigitsConcat(Trim(s), b);
    SpacesHaveNoDigits(a);
    SpacesHaveNoDigits(b);
  }

  /** A positive number is written by its digits, whatever sign stands before them. */
  lemma PositiveNumberDigits(s: string, k: int)
    requires ParseI64(s) == Some(k) && k > 0
    ensures DigitsOf(s) != "" && DigitsValue(DigitsOf(s)) == k
  {
    var body := if s != "" && (s[0] == '+' || s[0] == '-') then s[1..] else s;
    hide DigitsValue;
    AllDigitsStay(body);
    if s != "" && (s[0] == '+' || s[0] == '-') {
      var sign := [s[0]];
      assert s == sign + body;
      assert sign[1..] == "" && DigitsOf(sign) == "";
      DigitsConcat(sign, body);
      assert "" + body == body;
    }
  }

  /** What the filter reads of a year the selector accepts. */
  lemma SelectedYear(q: Query, key: int)
    requires Selector(q) == Some(key)
    ensures Trim(q.year) == "" ==> key == 0 && ParseYear(q.year) == None
    ensures Trim(q.year) != "" ==> key > 0 && ParseYear(q.year) == if |DigitsOf(q.year)| == 4 then Some(key) else None
  {
    hide Trim, ParseI64, DigitsValue;
    TrimKeepsDigits(q.year);
    if Trim(q.year) != "" {
      PositiveNumberDigits(Trim(q.year), key);
    }
  }

  lemma FilterIsSelection<M, P>(rules: Rules<M, P>, records: seq<Record>, q: Query, key: int)
    requires Selector(q) == Some(key) && YearReadsTheSame(q.year)
    ensures Filtered(rules, records, q) == Selected(records, q.scope, key)
  {
    hide Trim, ParseI64, ParseYear, DigitsOf;
    SelectedYear(q, key);
    WhereCongruent(records, (r: Record) => Matches(rules, q, r), Selects(q.scope, key));
  }

  /** A rollup-eligible query whose year both parsers read alike is answered from the
      rollups exactly as by the detail scan, for every record set, tab, HS level and limit. */
  lemma RollupsRefineTheScan<M, P>(rules: Rules<M, P>, records: seq<Record>, q: Query, key: int, tab: Tab, hsLevel: nat,
                                   limit: nat)
    requires Selector(q) == Some(key) && YearReadsTheSame(q.year)
    ensures RollupAnswer(rules, records, q, key, tab, hsLevel, limit) ==
      DetailAnswer(rules, records, q, tab, hsLevel, limit)
  {
    hide Selector, YearReadsTheSame, RollupAnswer, DetailAnswer;
    FilterIsSelection(rules, records, q, key);
    AnswersAgree(rules, records, q, key, tab, hsLevel, limit);
  }

  /** The filter tests nothing but the scope and the year. */
  predicate IsPlain(q: Query) {
    Trim(q.text) == "" && forall i :: 0 <= i < |q.others| ==> Trim(q.others[i]) == ""
  }

  /** A query without an expression is plain exactly when, whatever the matchers, its filter is
      the scope and the year its parser reads. */
  lemma PlainMeansNoCondition(q: Query)
    ensures IsPlain(q) <==> forall rules: Rules<(), ()>, r ::
      Matches(rules, q, r) <==> InScope(r, q.scope) && (ParseYear(q.year).Some? ==> r.year == ParseYear(q.year))
  {
    hide Trim, ParseYear;
    if !IsPlain(q) {
      var rules: Rules<(), ()> := Rules((_, _) => false, (_, _, _) => false, (_, _) => (), _ => ());
      var r := YEARLESS.(year := ParseYear(q.year));
      assert !Matches(rules, q, r);
    }
  }

  /** The rollups are asked exactly for plain queries without an expression whose year is blank
      or a positive number, and then for the key of that year. */
  lemma EligibleExactly(q: Query, key: int)
    ensures Selector(q) == Some(key) <==>
      && IsPlain(q) && !q.hasAdvanced
      && (if Trim(q.year) == "" then key == 0 else ParseI64(Trim(q.year)) == Some(key) && key > 0)
  {
    hide Trim, ParseI64;
  }

  /** They answer exactly when the money is one USD cohort or none and every net weight converts
      to kilograms. */
  lemma RollupsAnswerExactly(records: seq<Record>, scope: Scope, key: int)
    ensures var rows := Selected(records, scope, key);
      SemanticsAreSafe(records, scope, key) <==>
        && (forall r <- rows :: r.value.Some? ==> r.currency == Some(USD))
        && (forall r <- rows :: r.net.Some? ==> NetKg(r).Some?)
  {
    hide OverviewTableOf, OverviewOf, Selected, NetKg, UsdColumn;
    OverviewIsDetail(records, scope, key);
    MoneyIsSafe(Selected(records, scope, key));
    WeightIsSafe(Selected(records, scope, key));
  }

  lemma MoneyIsSafe(rows: seq<Record>)
    ensures MonetaryMode(rows) in {SingleUsd, NoMoney} <==>
      forall r <- rows :: r.value.Some? ==> r.currency == Some(USD)
  {
    hide OnlyUsd, UsdColumn, ValueUnstated;
    MonetaryModeMeansCohort(rows);
    CountIsZero(rows);
  }

  lemma WeightIsSafe(rows: seq<Record>)
    ensures WeightModeOf(rows) in {NormalizedKg, NoWeight} <==> forall r <- rows :: r.net.Some? ==> NetKg(r).Some?
  {
    hide NetKg;
    SelectsNothing(rows, LacksKg);
    CountIsLength(rows, NetOf);
    forall r ensures r in NonNull(rows, NetOf) <==> r in rows && r.net.Some? {
      NonNullMembers(rows, NetOf, r);
    }
  }

  /** The tab a section is shown on. */
  function TabOf(kind: Kind): Tab {
    match kind
    case Edrpou => Companies
    case Recipients => Companies
    case Senders => Companies
    case ProductCodes => Products
    case Trademarks => Products
    case ProductGroups => Products
    case _ => Countries
  }

  /** Each section is shown on its tab, once, and on no other. */
  lemma TabsShowTheirKinds(tab: Tab, kind: Kind)
    ensures kind in TabKinds(tab) <==> tab == TabOf(kind)
    ensures forall i, j :: 0 <= i < j < |TabKinds(tab)| ==> TabKinds(tab)[i] != TabKinds(tab)[j]
  {
  }

  const YEARLESS := Record(0, None, None, None, None, None, None, None, None, None, None, None, None, None, None, None,
                           None, None, None, None)

  /** A record without a year: the scan counts it, the year's rollup does not. */
  lemma YearlessRecordTells<M, P>(rules: Rules<M, P>, q: Query, key: int)
    requires Selector(q) == Some(key) && !YearReadsTheSame(q.year)
    ensures Answered(rules, [YEARLESS], q, NoTab, 0, 0) != DetailAnswer(rules, [YEARLESS], q, NoTab, 0, 0)
  {
    hide Trim, ParseI64, ParseYear, DigitsOf, OverviewTableOf, OverviewOf, MonetaryMode, WeightModeOf, RollupMonths,
      DetailMonths, MeasuresOf, UsdOf, TotalKg, CompatibleUsdTotal, CompatibleUsdPerNetKg;
    SelectedYear(q, key);
    var records := [YEARLESS];
    assert forall r <- records :: r == YEARLESS;
    WhereAll(records, (r: Record) => Matches(rules, q, r));
    WhereNone(records, Selects(q.scope, key));
    OverviewIsDetail(records, q.scope, key);
    NothingToSee();
    RowsOfOverview(records);
    RowsOfOverview([]);
    ModesOfNothing(records, q.scope, key);
  }

  lemma ModesOfNothing(records: seq<Record>, scope: Scope, key: int)
    requires Selected(records, scope, key) == []
    ensures SemanticsAreSafe(records, scope, key) && StoredOverview(records, scope, key).rows == 0
  {
    hide OverviewTableOf, OverviewOf, MonetaryMode, WeightModeOf;
    OverviewIsDetail(records, scope, key);
    NothingToSee();
  }

  /** Analytics answer as the detail scan does, for all records, exactly when the query is
      not rollup-eligible or its year is blank or has exactly four digits. */
  lemma AnsweredIsTheScanExactly<M, P>(rules: Rules<M, P>, q: Query)
    ensures (forall records, tab, hsLevel, limit ::
               Answered(rules, records, q, tab, hsLevel, limit) == DetailAnswer(rules, records, q, tab, hsLevel, limit))
      <==> Selector(q).None? || YearReadsTheSame(q.year)
  {
    hide Selector, YearReadsTheSame, RollupAnswer, DetailAnswer, SemanticsAreSafe;
    if Selector(q).None? || YearReadsTheSame(q.year) {
      forall records, tab, hsLevel, limit
        ensures Answered(rules, records, q, tab, hsLevel, limit) == DetailAnswer(rules, records, q, tab, hsLevel, limit)
      {
        if Selector(q).Some? {
          RollupsRefineTheScan(rules, records, q, Selector(q).value, tab, hsLevel, limit);
        }
      }
    } else {
      YearlessRecordTells(rules, q, Selector(q).value);
    }
  }
}
