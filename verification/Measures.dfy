/** The measures of a set of records: money partitioned by currency, weight by unit, and
    value per kilogram, with counters for what each of them leaves out. */
module Measures {
  import opened Basics
  import opened Sql
  import opened Records

  datatype CurrencyTotal = CurrencyTotal(valuedRows: nat, totalValue: real)

  datatype WeightTotal = WeightTotal(factor: Option<real>, rows: nat, sourceTotal: real, kg: Option<real>)

  /** The unit list is sorted and deduplicated in the end, so it is kept as a set. */
  datatype ValuePerWeight = ValuePerWeight(
    units: set<string>, pairedRows: nat, totalValue: real, totalWeight: real, ratio: Option<real>)

  datatype Exclusions = Exclusions(
    valueWithoutKnownCurrency: nat,
    netWithoutKnownUnit: nat,
    grossWithoutKnownUnit: nat,
    ratioWithoutKnownCurrency: nat,
    ratioWithoutKnownUnit: nat,
    ratioWithZeroOrMissingWeight: nat)

  /** Bucket lists are maps from the bucket's key; the queries order them for display. */
  datatype Measures = Measures(
    currencies: map<string, CurrencyTotal>,
    netWeights: map<string, WeightTotal>,
    grossWeights: map<string, WeightTotal>,
    pairs: map<string, ValuePerWeight>,
    exclusions: Exclusions)

  // ---------- the queries ----------

  function ValueOf(r: Record): Option<real> {
    r.value
  }

  function CurrencyBucket(r: Record): string {
    Bucket(r.currency)
  }

  function UnitBucket(r: Record): string {
    Bucket(r.unit)
  }

  predicate IsPaired(r: Record) {
    Holds(And(And(IsNotNull(r.value), IsNotNull(r.net)), Positive(NetKg(r))))
  }

  function Paired(rows: seq<Record>): seq<Record> {
    Where(rows, IsPaired)
  }

  ghost function CurrencyTotals(rows: seq<Record>): map<string, CurrencyTotal> {
    var valued := NonNull(rows, ValueOf);
    map c | c in GroupKeys(valued, CurrencyBucket) ::
      CurrencyTotal(|Group(valued, CurrencyBucket, c)|, Total(Group(valued, CurrencyBucket, c), ValueOf))
  }

  function KgOf(weight: Record -> Option<real>): Record -> Option<real> {
    (r: Record) => InKg(r.unit, weight(r))
  }

  function WeightTotalOf(group: seq<Record>, weight: Record -> Option<real>, u: string): WeightTotal {
    WeightTotal(WeightFactor(u), |group|, Total(group, weight), Sum(group, KgOf(weight)))
  }

  ghost function WeightTotals(rows: seq<Record>, weight: Record -> Option<real>): map<string, WeightTotal> {
    var weighed := NonNull(rows, weight);
    map u | u in GroupKeys(weighed, UnitBucket) :: WeightTotalOf(Group(weighed, UnitBucket, u), weight, u)
  }

  /** What the pair query returns for one (currency, unit). */
  datatype PairGroup = PairGroup(currency: string, unit: string, rows: nat, value: real, weight: real)

  function PairKey(r: Record): (string, string) {
    (CurrencyBucket(r), UnitBucket(r))
  }

  function KeyOf(g: PairGroup): (string, string) {
    (g.currency, g.unit)
  }

  ghost predicate IsPairQuery(paired: seq<Record>, groups: seq<PairGroup>) {
    && (forall i, j :: 0 <= i < j < |groups| ==> KeyOf(groups[i]) != KeyOf(groups[j]))
    && GroupKeys(groups, KeyOf) == GroupKeys(paired, PairKey)
    && (forall g <- groups :: IsPairGroup(paired, g))
  }

  ghost predicate IsPairGroup(paired: seq<Record>, g: PairGroup) {
    var group := Group(paired, PairKey, KeyOf(g));
    g.rows == |group| && g.value == Total(group, ValueOf) && g.weight == Total(group, NetKg)
  }

  function Ratio(value: real, weight: real): Option<real> {
    if weight > 0.0 then Some(value / weight) else None
  }

  /** A ratio stands exactly when there is weight, and times the weight it is the value. */
  predicate HasItsRatio(entry: ValuePerWeight) {
    && (entry.ratio.Some? <==> entry.totalWeight > 0.0)
    && (entry.ratio.Some? ==> entry.ratio.value * entry.totalWeight == entry.totalValue)
  }

  const EMPTY_PAIR := ValuePerWeight({}, 0, 0.0, 0.0, None)

  function MergedInto(entry: ValuePerWeight, g: PairGroup): ValuePerWeight {
    ValuePerWeight(entry.units + {g.unit}, entry.pairedRows + g.rows, entry.totalValue + g.value,
                   entry.totalWeight + g.weight, None)
  }

  /** One currency's entry after the groups have been merged into the map, without its ratio. */
  function Merged(groups: seq<PairGroup>, c: string): ValuePerWeight {
    if groups == [] then EMPTY_PAIR
    else
      var before, g := Merged(groups[..|groups| - 1], c), groups[|groups| - 1];
      if g.currency == c then MergedInto(before, g) else before
  }

  lemma MergedStep(groups: seq<PairGroup>, g: PairGroup, c: string)
    ensures Merged(groups + [g], c) == if g.currency == c then MergedInto(Merged(groups, c), g) else Merged(groups, c)
  {
    assert (groups + [g])[..|groups|] == groups;
  }

  lemma {:induction false} MergedAbsent(groups: seq<PairGroup>, c: string)
    requires forall g <- groups :: g.currency != c
    ensures Merged(groups, c) == EMPTY_PAIR
  {
    if groups != [] {
      MergedAbsent(groups[..|groups| - 1], c);
    }
  }

  // ---------- merging equals grouping by currency ----------

  lemma {:induction false} MergeAddsTheListedGroups(paired: seq<Record>, groups: seq<PairGroup>, c: string)
    requires forall i, j :: 0 <= i < j < |groups| ==> KeyOf(groups[i]) != KeyOf(groups[j])
    requires forall g <- groups :: IsPairGroup(paired, g)
    ensures var here := GroupsIn(Group(paired, CurrencyBucket, c), PairKey, GroupKeys(groups, KeyOf));
      && Merged(groups, c).units == (set g <- groups | g.currency == c :: g.unit)
      && Merged(groups, c).pairedRows == |here|
      && Merged(groups, c).totalValue == Total(here, ValueOf)
      && Merged(groups, c).totalWeight == Total(here, NetKg)
  {
    var mine, keys := Group(paired, CurrencyBucket, c), GroupKeys(groups, KeyOf);
    if groups == [] {
      assert keys == {};
      NoGroups(mine, PairKey);
    } else {
      var rest, g := groups[..|groups| - 1], groups[|groups| - 1];
      assert forall x :: x in groups <==> x in rest || x == g;
      assert KeyOf(g) in keys;
      assert keys - {KeyOf(g)} == GroupKeys(rest, KeyOf);
      MergeAddsTheListedGroups(paired, rest, c);
      GroupsSplit(mine, PairKey, keys, KeyOf(g), ValueOf);
      GroupsSplit(mine, PairKey, keys, KeyOf(g), NetKg);
      GroupWithinCurrency(paired, c, KeyOf(g));
    }
  }

  lemma GroupWithinCurrency(paired: seq<Record>, c: string, k: (string, string))
    ensures Group(Group(paired, CurrencyBucket, c), PairKey, k) == if k.0 == c then Group(paired, PairKey, k) else []
  {
    GroupOfGroup(paired, CurrencyBucket, PairKey, c, k);
  }

  /** One currency's entry, grouping the paired rows by currency directly. */
  ghost function PairTotal(rows: seq<Record>, c: string): ValuePerWeight {
    var mine := Group(Paired(rows), CurrencyBucket, c);
    ValuePerWeight(GroupKeys(mine, UnitBucket), |mine|, Total(mine, ValueOf), Total(mine, NetKg),
                   Ratio(Total(mine, ValueOf), Total(mine, NetKg)))
  }

  ghost function PairTotals(rows: seq<Record>): map<string, ValuePerWeight> {
    map c | c in GroupKeys(Paired(rows), CurrencyBucket) :: PairTotal(rows, c)
  }

  /** Merging the groups through the map is grouping the paired rows by currency. */
  lemma MergeIsGroupingByCurrency(rows: seq<Record>, groups: seq<PairGroup>, c: string)
    requires IsPairQuery(Paired(rows), groups)
    ensures c in (set g <- groups :: g.currency) <==> c in PairTotals(rows)
    ensures var entry := Merged(groups, c);
      entry.(ratio := Ratio(entry.totalValue, entry.totalWeight)) == PairTotal(rows, c)
  {
    hide NetKg, ValueOf, Paired, Merged, Bucket, Ratio;
    var paired := Paired(rows);
    var mine := Group(paired, CurrencyBucket, c);
    MergeAddsTheListedGroups(paired, groups, c);
    forall r | r in mine ensures PairKey(r) in GroupKeys(groups, KeyOf) {
      GroupMembers(paired, CurrencyBucket, c, r);
      assert PairKey(r) in GroupKeys(paired, PairKey);
    }
    AllGroups(mine, PairKey, GroupKeys(groups, KeyOf));
    PairUnits(paired, groups, c);
    if c in GroupKeys(paired, CurrencyBucket) {
      var r :| r in paired && CurrencyBucket(r) == c;
      assert PairKey(r) in GroupKeys(groups, KeyOf);
    }
    if g :| g in groups && g.currency == c {
      assert KeyOf(g) in GroupKeys(paired, PairKey);
      var r :| r in paired && PairKey(r) == KeyOf(g);
      assert CurrencyBucket(r) == c;
    }
  }

  lemma PairUnits(paired: seq<Record>, groups: seq<PairGroup>, c: string)
    requires GroupKeys(groups, KeyOf) == GroupKeys(paired, PairKey)
    ensures (set g <- groups | g.currency == c :: g.unit) == GroupKeys(Group(paired, CurrencyBucket, c), UnitBucket)
  {
    hide Bucket;
    var mine := Group(paired, CurrencyBucket, c);
    forall u ensures u in (set g <- groups | g.currency == c :: g.unit) <==> (c, u) in GroupKeys(groups, KeyOf) {
      if (c, u) in GroupKeys(groups, KeyOf) {
        var g :| g in groups && KeyOf(g) == (c, u);
        assert g.unit == u;
      }
      if g :| g in groups && g.currency == c && g.unit == u {
        assert KeyOf(g) == (c, u);
      }
    }
    forall u ensures u in GroupKeys(mine, UnitBucket) <==> (c, u) in GroupKeys(paired, PairKey) {
      if u in GroupKeys(mine, UnitBucket) {
        var r :| r in mine && UnitBucket(r) == u;
        GroupMembers(paired, CurrencyBucket, c, r);
        assert PairKey(r) == (c, u);
      }
      if r :| r in paired && PairKey(r) == (c, u) {
        GroupMembers(paired, CurrencyBucket, c, r);
        assert UnitBucket(r) == u;
      }
    }
  }

  /** Merges the pair query's (currency, unit) groups into one entry per currency. */
  method MergePairs(ghost rows: seq<Record>, groups: seq<PairGroup>) returns (totals: map<string, ValuePerWeight>)
    requires IsPairQuery(Paired(rows), groups)
    ensures totals == PairTotals(rows)
    ensures forall c <- totals :: HasItsRatio(totals[c])
  {
    hide Merged, Ratio, HasItsRatio, IsPairQuery, PairTotal, Paired;
    totals := map[];
    var next := 0;
    while next < |groups|
      invariant 0 <= next <= |groups|
      invariant totals.Keys == set g <- groups[..next] :: g.currency
      invariant forall c <- totals :: totals[c] == Merged(groups[..next], c)
    {
      var g := groups[next];
      assert groups[..next + 1] == groups[..next] + [g];
      forall c ensures Merged(groups[..next + 1], c) ==
        if g.currency == c then MergedInto(Merged(groups[..next], c), g) else Merged(groups[..next], c)
      {
        MergedStep(groups[..next], g, c);
      }
      if g.currency !in totals {
        MergedAbsent(groups[..next], g.currency);
        totals := totals[g.currency := EMPTY_PAIR];
      }
      totals := totals[g.currency := MergedInto(totals[g.currency], g)];
      next := next + 1;
    }
    assert groups[..next] == groups;
    totals := map c | c in totals :: totals[c].(ratio := Ratio(totals[c].totalValue, totals[c].totalWeight));
    forall c ensures c in totals <==> c in PairTotals(rows)
      ensures c in totals ==> totals[c] == PairTotal(rows, c)
    {
      MergeIsGroupingByCurrency(rows, groups, c);
    }
    forall c | c in totals ensures HasItsRatio(totals[c]) {
      RatioDivides(totals[c]);
    }
  }

  lemma RatioDivides(entry: ValuePerWeight)
    requires entry.ratio == Ratio(entry.totalValue, entry.totalWeight)
    ensures HasItsRatio(entry)
  {
  }

  // ---------- the measures ----------

  predicate NetUnstated(r: Record) {
    Holds(And(IsNotNull(r.net), Unstated(r.unit)))
  }

  predicate GrossUnstated(r: Record) {
    Holds(And(IsNotNull(r.gross), Unstated(r.unit)))
  }

  predicate ValueUnstated(r: Record) {
    Holds(And(IsNotNull(r.value), Unstated(r.currency)))
  }

  predicate ZeroOrMissingWeight(r: Record) {
    Holds(And(IsNotNull(r.value), Or(IsNull(r.net), NotPositive(r.net))))
  }

  function ExclusionsOf(rows: seq<Record>): Exclusions {
    Exclusions(
      |Where(rows, ValueUnstated)|,
      |Where(rows, NetUnstated)|,
      |Where(rows, GrossUnstated)|,
      |Where(rows, (r: Record) => ValueUnstated(r) && r.net.Some?)|,
      |Where(rows, (r: Record) => NetUnstated(r) && r.value.Some?)|,
      |Where(rows, ZeroOrMissingWeight)|)
  }

  function NetOf(r: Record): Option<real> {
    r.net
  }

  function GrossOf(r: Record): Option<real> {
    r.gross
  }

  /** `projection_measures` of the filtered rows; its pair totals are what `MergePairs`
      returns for the pair query, by `MergeIsGroupingByCurrency`. */
  ghost function MeasuresOf(rows: seq<Record>): Measures {
    Measures(CurrencyTotals(rows), WeightTotals(rows, NetOf), WeightTotals(rows, GrossOf), PairTotals(rows),
             ExclusionsOf(rows))
  }

  /** The one known currency, when there is exactly one bucket and it is known. */
  ghost function CompatibleCurrency(m: Measures): Option<string> {
    if |m.currencies| == 1 && (forall c <- m.currencies :: CurrencyKnown(c))
    then var c :| c in m.currencies; Some(c)
    else None
  }

  ghost function CompatibleUsdTotal(m: Measures): Option<real> {
    if CompatibleCurrency(m) == Some(USD) then Some(m.currencies[USD].totalValue) else None
  }

  ghost function CompatibleUsdPerNetKg(m: Measures): Option<real> {
    if CompatibleCurrency(m) == Some(USD) && USD in m.pairs then m.pairs[USD].ratio else None
  }

  ghost function TotalKg(weights: map<string, WeightTotal>): real {
    SumOver(weights.Keys, u => if u in weights then Coalesce(weights[u].kg, 0.0) else 0.0)
  }

  // ---------- money ----------

  ghost function ValuedRowsIn(totals: map<string, CurrencyTotal>, keys: set<string>): nat {
    CountOver(keys, c => if c in totals then totals[c].valuedRows else 0)
  }

  ghost function MoneyIn(totals: map<string, CurrencyTotal>): real {
    SumOver(totals.Keys, c => if c in totals then totals[c].totalValue else 0.0)
  }

  /** Currency buckets add up to every valued row and to the plain sum of all values. */
  lemma CurrencyBucketsConserve(rows: seq<Record>)
    ensures ValuedRowsIn(CurrencyTotals(rows), CurrencyTotals(rows).Keys) == |NonNull(rows, ValueOf)|
    ensures MoneyIn(CurrencyTotals(rows)) == Total(rows, ValueOf)
  {
    hide ValueOf, NonNull;
    var totals, valued := CurrencyTotals(rows), NonNull(rows, ValueOf);
    GroupsConserve(valued, CurrencyBucket, totals.Keys, ValueOf);
    AllGroups(valued, CurrencyBucket, totals.Keys);
    CountOverCongruent(totals.Keys, c => if c in totals then totals[c].valuedRows else 0,
                       c => |Group(valued, CurrencyBucket, c)|);
    SumOverCongruent(totals.Keys, c => if c in totals then totals[c].totalValue else 0.0,
                     c => Total(Group(valued, CurrencyBucket, c), ValueOf));
    TotalSkipsRows(rows, ValueOf, ValueOf);
  }

  /** The rows of the unknown currency buckets are the ones the exclusion counter counts. */
  lemma UnknownCurrencyIsExcluded(rows: seq<Record>)
    ensures var totals := CurrencyTotals(rows);
      ValuedRowsIn(totals, (set c <- totals | !CurrencyKnown(c))) == ExclusionsOf(rows).valueWithoutKnownCurrency
  {
    hide Bucket, Unstated, CurrencyKnown, NonNull;
    var totals, valued := CurrencyTotals(rows), NonNull(rows, ValueOf);
    var unknown := set c <- totals | !CurrencyKnown(c);
    forall r | r in rows ensures ValueOf(r).Some? && CurrencyBucket(r) in unknown <==> ValueUnstated(r) {
      UnstatedMeansUnknownBucket(r.currency);
      NonNullMembers(rows, ValueOf, r);
      if ValueOf(r).Some? {
        assert CurrencyBucket(r) in GroupKeys(valued, CurrencyBucket);
      }
    }
    GroupedRows(rows, ValueOf, CurrencyBucket, unknown, ValueUnstated);
    CountOverCongruent(unknown, c => if c in totals then totals[c].valuedRows else 0,
                       c => |Group(valued, CurrencyBucket, c)|);
  }

  // ---------- weight ----------

  ghost function UnknownWeightRows(totals: map<string, WeightTotal>): nat {
    CountOver((set u <- totals | totals[u].factor == None), u => if u in totals then totals[u].rows else 0)
  }

  predicate Unfactored(r: Record, weight: Record -> Option<real>) {
    weight(r).Some? && WeightFactor(UnitBucket(r)) == None
  }

  lemma UnknownWeightRowsAre(rows: seq<Record>, weight: Record -> Option<real>)
    ensures UnknownWeightRows(WeightTotals(rows, weight)) == |Where(rows, r => Unfactored(r, weight))|
  {
    hide Bucket, WeightFactor, NonNull, Sum, Total, KgOf, Group;
    var totals, weighed := WeightTotals(rows, weight), NonNull(rows, weight);
    var unknown := set u <- totals | totals[u].factor == None;
    forall r | r in rows ensures weight(r).Some? && UnitBucket(r) in unknown <==> Unfactored(r, weight) {
      NonNullMembers(rows, weight, r);
      if weight(r).Some? {
        assert UnitBucket(r) in GroupKeys(weighed, UnitBucket);
      }
    }
    GroupedRows(rows, weight, UnitBucket, unknown, r => Unfactored(r, weight));
    CountOverCongruent(unknown, u => if u in totals then totals[u].rows else 0, u => |Group(weighed, UnitBucket, u)|);
  }

  /** A unit the counters and the buckets agree about: recognized, blank, or marked unknown. */
  predicate UnitAccountedFor(r: Record) {
    WeightFactor(UnitBucket(r)).Some? || Holds(Unstated(r.unit))
  }

  lemma UnknownWeightAgainstExclusions(rows: seq<Record>, weight: Record -> Option<real>, unstated: Record -> bool)
    requires forall r <- rows :: unstated(r) == (weight(r).Some? && Holds(Unstated(r.unit)))
    ensures UnknownWeightRows(WeightTotals(rows, weight)) >= |Where(rows, unstated)|
    ensures UnknownWeightRows(WeightTotals(rows, weight)) == |Where(rows, unstated)| <==>
      forall r <- rows :: weight(r).Some? ==> UnitAccountedFor(r)
  {
    hide Bucket, WeightFactor, Unstated, WeightTotals, UnknownWeightRows;
    UnknownWeightRowsAre(rows, weight);
    forall r | r in rows ensures unstated(r) ==> Unfactored(r, weight) {
      FactorOfBucket(r.unit);
    }
    CountsCompare(rows, unstated, r => Unfactored(r, weight));
    if |Where(rows, unstated)| == |Where(rows, r => Unfactored(r, weight))| {
      forall r | r in rows && weight(r).Some? ensures UnitAccountedFor(r) {
        assert Unfactored(r, weight) ==> unstated(r);
      }
    }
  }

  /** The unknown weight buckets hold at least the rows the exclusion counters count, and
      exactly those when every weighed row's unit is recognized, blank or marked unknown. */
  lemma UnknownWeightIsExcluded(rows: seq<Record>)
    ensures var m := MeasuresOf(rows);
      && UnknownWeightRows(m.netWeights) >= m.exclusions.netWithoutKnownUnit
      && UnknownWeightRows(m.grossWeights) >= m.exclusions.grossWithoutKnownUnit
      && (UnknownWeightRows(m.netWeights) == m.exclusions.netWithoutKnownUnit <==>
            forall r <- rows :: r.net.Some? ==> UnitAccountedFor(r))
      && (UnknownWeightRows(m.grossWeights) == m.exclusions.grossWithoutKnownUnit <==>
            forall r <- rows :: r.gross.Some? ==> UnitAccountedFor(r))
  {
    hide Unstated, UnitAccountedFor, UnknownWeightRows, WeightTotals, CurrencyTotals, PairTotals;
    UnknownWeightAgainstExclusions(rows, NetOf, NetUnstated);
    UnknownWeightAgainstExclusions(rows, GrossOf, GrossUnstated);
  }

  /** Every valued row is paired with a positive weight, lacks one, or has one in a unit
      nobody can convert. */
  lemma ValuedRowsPartition(rows: seq<Record>)
    ensures |NonNull(rows, ValueOf)| ==
      |Paired(rows)| + ExclusionsOf(rows).ratioWithZeroOrMissingWeight +
      |Where(rows, (r: Record) => r.value.Some? && Holds(Positive(r.net)) && Unfactored(r, NetOf))|
  {
    hide Bucket, WeightFactor;
    forall r | r in rows ensures Holds(Positive(NetKg(r))) <==> Holds(Positive(r.net)) && !Unfactored(r, NetOf) {
      PositiveInKg(r.unit, r.net);
    }
    CountsPartition(rows, ValueOf, IsPaired, ZeroOrMissingWeight,
                    (r: Record) => r.value.Some? && Holds(Positive(r.net)) && Unfactored(r, NetOf));
  }

  /** The two ratio counters are the parts of the value and weight counters whose rows
      also carry the other measure. */
  lemma RatioCountersArePart(rows: seq<Record>)
    ensures var e := ExclusionsOf(rows);
      && e.valueWithoutKnownCurrency ==
           e.ratioWithoutKnownCurrency + |Where(rows, (r: Record) => ValueUnstated(r) && r.net.None?)|
      && e.netWithoutKnownUnit ==
           e.ratioWithoutKnownUnit + |Where(rows, (r: Record) => NetUnstated(r) && r.value.None?)|
  {
    hide ValueUnstated, NetUnstated;
    CountsSplit(rows, ValueUnstated, (r: Record) => ValueUnstated(r) && r.net.Some?,
                (r: Record) => ValueUnstated(r) && r.net.None?);
    CountsSplit(rows, NetUnstated, (r: Record) => NetUnstated(r) && r.value.Some?,
                (r: Record) => NetUnstated(r) && r.value.None?);
  }

  lemma BucketRows(rows: seq<Record>, weight: Record -> Option<real>, u: string)
    requires u in GroupKeys(NonNull(rows, weight), UnitBucket)
    ensures Group(NonNull(rows, weight), UnitBucket, u) != []
    ensures forall r <- Group(NonNull(rows, weight), UnitBucket, u) :: UnitBucket(r) == u && weight(r).Some?
  {
    hide Bucket, WeightFactor, NonNull, Group;
    forall r
      ensures r in Group(NonNull(rows, weight), UnitBucket, u) <==>
        r in rows && weight(r).Some? && UnitBucket(r) == u
    {
      GroupMembers(NonNull(rows, weight), UnitBucket, u, r);
      NonNullMembers(rows, weight, r);
    }
    var r :| r in NonNull(rows, weight) && UnitBucket(r) == u;
    assert r in Group(NonNull(rows, weight), UnitBucket, u) by {
      GroupMembers(NonNull(rows, weight), UnitBucket, u, r);
    }
  }

  /** A recognized bucket's kilograms are its source total times the unit's factor; an
      unknown bucket has none. */
  lemma BucketsConvertByFactor(rows: seq<Record>, weight: Record -> Option<real>, u: string)
    requires u in WeightTotals(rows, weight)
    ensures var t := WeightTotals(rows, weight)[u];
      t.kg == if t.factor.Some? then Some(Scaled(t.factor.value, t.sourceTotal)) else None
  {
    hide Bucket, NonNull, Group, WeightTotalOf, Scaled;
    var group := Group(NonNull(rows, weight), UnitBucket, u);
    assert WeightTotals(rows, weight)[u] == WeightTotalOf(group, weight, u);
    BucketRows(rows, weight, u);
    BucketConverts(group, weight, u);
  }

  lemma BucketConverts(group: seq<Record>, weight: Record -> Option<real>, u: string)
    requires group != [] && forall r <- group :: UnitBucket(r) == u && weight(r).Some?
    ensures var t := WeightTotalOf(group, weight, u);
      t.kg == if t.factor.Some? then Some(Scaled(t.factor.value, t.sourceTotal)) else None
  {
    hide Bucket, Total, CountOf, Scaled;
    ScaledTotal(group, weight, u);
  }

  lemma {:induction false} ScaledTotal(group: seq<Record>, weight: Record -> Option<real>, u: string)
    requires forall r <- group :: UnitBucket(r) == u && weight(r).Some?
    ensures WeightFactor(u).Some? ==> CountOf(group, KgOf(weight)) == |group|
    ensures WeightFactor(u).Some? ==> Total(group, KgOf(weight)) == Scaled(WeightFactor(u).value, Total(group, weight))
    ensures WeightFactor(u).None? ==> CountOf(group, KgOf(weight)) == 0
  {
    hide Bucket, WeightFactor, Scaled;
    if group == [] {
      if WeightFactor(u).Some? {
        ScaledUnits(WeightFactor(u).value);
      }
    } else {
      var r, rest := group[0], group[1..];
      assert r in group && forall r <- rest :: r in group;
      ScaledTotal(rest, weight, u);
      KgInBucket(r, weight, u);
      if WeightFactor(u).Some? {
        ScaledSum(WeightFactor(u).value, weight(r).value, Total(rest, weight));
      }
    }
  }

  lemma KgInBucket(r: Record, weight: Record -> Option<real>, u: string)
    requires UnitBucket(r) == u && weight(r).Some?
    ensures KgOf(weight)(r) ==
      if WeightFactor(u).Some? then Some(Scaled(WeightFactor(u).value, weight(r).value)) else None
  {
    hide WeightFactor, Scaled;
    FactorOfBucket(r.unit);
  }

  /** The kilograms of all buckets are the plain sum of the converted weights. */
  lemma BucketsAddUpToKg(rows: seq<Record>, weight: Record -> Option<real>)
    ensures TotalKg(WeightTotals(rows, weight)) == Total(rows, KgOf(weight))
  {
    hide Bucket, WeightFactor, NonNull;
    var totals, weighed, kg := WeightTotals(rows, weight), NonNull(rows, weight), KgOf(weight);
    GroupsConserve(weighed, UnitBucket, totals.Keys, kg);
    AllGroups(weighed, UnitBucket, totals.Keys);
    forall u | u in totals ensures Coalesce(totals[u].kg, 0.0) == Total(Group(weighed, UnitBucket, u), kg) {
      SumOrZero(Group(weighed, UnitBucket, u), kg);
    }
    SumOverCongruent(totals.Keys, u => if u in totals then Coalesce(totals[u].kg, 0.0) else 0.0,
                     u => Total(Group(weighed, UnitBucket, u), kg));
    TotalSkipsRows(rows, weight, kg);
  }
}
