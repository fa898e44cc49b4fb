/** The rollup tables' own encodings of "one known USD cohort" and "weights normalize",
    against the measures that encode the same two facts as buckets. */
module Modes {
  import opened Basics
  import opened Sql
  import opened Records
  import opened Measures

  datatype MoneyMode = NoMoney | MoneyUnavailable | SingleUsd | Partitioned

  datatype WeightMode = NoWeight | WeightUnavailable | NormalizedKg

  function CurrencyOf(r: Record): Option<string> {
    r.currency
  }

  /** The FILTER clause of the currency aggregates. */
  predicate HasStatedCurrency(r: Record) {
    Holds(And(IsNotNull(r.value), Not(StartsWith(r.currency, UNKNOWN))))
  }

  /** `COUNT(DISTINCT currency_key) FILTER (...) = 1 AND MIN(currency_key) FILTER (...) = 'USD'`. */
  ghost predicate OnlyUsd(rows: seq<Record>) {
    var currencies := Values(Where(rows, HasStatedCurrency), CurrencyOf);
    |currencies| == 1 && IsLeast(USD, currencies)
  }

  ghost function MonetaryMode(rows: seq<Record>): MoneyMode {
    if CountOf(rows, ValueOf) == 0 then NoMoney
    else if |Where(rows, ValueUnstated)| > 0 then MoneyUnavailable
    else if OnlyUsd(rows) then SingleUsd
    else Partitioned
  }

  /** The `total_value_usd` column: NULL unless the rows are one known USD cohort. */
  ghost function UsdColumn(rows: seq<Record>): Option<real> {
    if CountOf(rows, ValueOf) == 0 then Some(0.0)
    else if |Where(rows, ValueUnstated)| > 0 then None
    else if OnlyUsd(rows) then Sum(rows, ValueOf)
    else None
  }

  predicate LacksKg(r: Record) {
    r.net.Some? && NetKg(r).None?
  }

  ghost function WeightModeOf(rows: seq<Record>): WeightMode {
    if CountOf(rows, NetOf) == 0 then NoWeight
    else if |Where(rows, LacksKg)| > 0 then WeightUnavailable
    else NormalizedKg
  }

  /** What both encodings of a USD cohort mean. */
  ghost predicate IsUsdCohort(rows: seq<Record>) {
    (exists r :: r in rows && r.value.Some?) && (forall r <- rows :: r.value.Some? ==> r.currency == Some(USD))
  }

  lemma CountIsZero(rows: seq<Record>)
    ensures CountOf(rows, ValueOf) == 0 <==> forall r <- rows :: r.value.None?
  {
    CountIsLength(rows, ValueOf);
    forall r ensures r in NonNull(rows, ValueOf) <==> r in rows && r.value.Some? {
      NonNullMembers(rows, ValueOf, r);
    }
    if NonNull(rows, ValueOf) != [] {
      assert NonNull(rows, ValueOf)[0] in NonNull(rows, ValueOf);
    }
  }

  lemma SelectsNothing(rows: seq<Record>, p: Record -> bool)
    ensures |Where(rows, p)| == 0 <==> forall r <- rows :: !p(r)
  {
    forall r ensures r in Where(rows, p) <==> r in rows && p(r) {
      WhereMembers(rows, p, r);
    }
    if Where(rows, p) != [] {
      assert Where(rows, p)[0] in Where(rows, p);
    }
  }

  lemma UsdIsStated(r: Record)
    ensures r.value.Some? && r.currency == Some(USD) ==> HasStatedCurrency(r) && !ValueUnstated(r)
    ensures r.value.Some? && !ValueUnstated(r) ==> HasStatedCurrency(r) && r.currency.Some?
    ensures HasStatedCurrency(r) || ValueUnstated(r) ==> r.value.Some?
  {
  }

  lemma OnlyUsdMeansCohort(rows: seq<Record>)
    requires forall r <- rows :: !ValueUnstated(r)
    requires exists r :: r in rows && r.value.Some?
    ensures OnlyUsd(rows) <==> IsUsdCohort(rows)
  {
    hide HasStatedCurrency, ValueUnstated;
    var stated := Where(rows, HasStatedCurrency);
    var currencies := Values(stated, CurrencyOf);
    forall r ensures r in stated <==> r in rows && r.value.Some?
      ensures r in stated ==> r.currency.Some?
    {
      WhereMembers(rows, HasStatedCurrency, r);
      UsdIsStated(r);
    }
    if OnlyUsd(rows) {
      forall r | r in rows && r.value.Some? ensures r.currency == Some(USD) {
        assert r.currency.value in currencies;
        OneElement(currencies, USD, r.currency.value);
      }
    }
    if IsUsdCohort(rows) {
      var r :| r in rows && r.value.Some?;
      assert CurrencyOf(r).value in currencies;
      assert currencies == {USD};
    }
  }

  lemma OneElement<T>(s: set<T>, a: T, b: T)
    requires |s| == 1 && a in s && b in s
    ensures a == b
  {
    var others := s - {a};
    assert |others| == 0;
    assert b !in others;
  }

  lemma MonetaryModeMeansCohort(rows: seq<Record>)
    ensures MonetaryMode(rows) == SingleUsd <==> IsUsdCohort(rows)
    ensures UsdColumn(rows) ==
      if forall r <- rows :: r.value.None? then Some(0.0)
      else if IsUsdCohort(rows) then Some(Total(rows, ValueOf)) else None
  {
    hide OnlyUsd, ValueUnstated;
    CountIsZero(rows);
    SelectsNothing(rows, ValueUnstated);
    forall r | r in rows
      ensures ValueUnstated(r) ==> r.value.Some? && r.currency != Some(USD)
    {
      UsdIsStated(r);
    }
    if CountOf(rows, ValueOf) > 0 && |Where(rows, ValueUnstated)| == 0 {
      OnlyUsdMeansCohort(rows);
    }
  }

  lemma CompatibleMeansCohort(rows: seq<Record>)
    ensures CompatibleUsdTotal(MeasuresOf(rows)) == if IsUsdCohort(rows) then Some(Total(rows, ValueOf)) else None
  {
    hide NonNull, Bucket, WeightTotals, PairTotals, ExclusionsOf;
    var m, valued := MeasuresOf(rows), NonNull(rows, ValueOf);
    forall r ensures r in valued <==> r in rows && r.value.Some?
      ensures CurrencyBucket(r) == USD <==> r.currency == Some(USD)
    {
      NonNullMembers(rows, ValueOf, r);
      UsdBucket(r.currency);
    }
    assert CurrencyKnown(USD);
    if IsUsdCohort(rows) {
      var r :| r in rows && r.value.Some?;
      assert CurrencyBucket(r) in GroupKeys(valued, CurrencyBucket);
      assert m.currencies.Keys == {USD};
      assert |m.currencies| == |m.currencies.Keys|;
      GroupOfAll(valued, CurrencyBucket, USD);
      TotalSkipsRows(rows, ValueOf, ValueOf);
    } else if CompatibleCurrency(m) == Some(USD) {
      assert |m.currencies| == |m.currencies.Keys|;
      forall r | r in rows && r.value.Some? ensures r.currency == Some(USD) {
        assert CurrencyBucket(r) in m.currencies.Keys;
        OneElement(m.currencies.Keys, USD, CurrencyBucket(r));
      }
    }
  }

  /** In a USD cohort the compatible value per kilogram is that of all paired rows. */
  lemma UsdPerNetKgIs(rows: seq<Record>)
    requires IsUsdCohort(rows)
    ensures CompatibleUsdPerNetKg(MeasuresOf(rows)) ==
      if Paired(rows) == [] then None else Ratio(Total(Paired(rows), ValueOf), Total(Paired(rows), NetKg))
  {
    hide Bucket, CurrencyTotals, WeightTotals, ExclusionsOf, CompatibleCurrency, IsPaired, NetKg, Ratio;
    var paired := Paired(rows);
    CompatibleMeansCohort(rows);
    forall r | r in paired ensures CurrencyBucket(r) == USD {
      WhereMembers(rows, IsPaired, r);
      PairedIsValued(r);
      UsdBucket(r.currency);
    }
    GroupOfAll(paired, CurrencyBucket, USD);
    if paired != [] {
      assert paired[0] in paired;
    }
  }

  lemma PairedIsValued(r: Record)
    ensures IsPaired(r) ==> r.value.Some?
  {
    hide NetKg;
  }

  lemma UsdBucket(key: Option<string>)
    ensures Bucket(key) == USD <==> key == Some(USD)
  {
  }

  /** `monetary_mode` is 'single_usd' exactly when the measures have a USD total, and the
      nullable USD column then holds that total; without money both read as zero. */
  lemma UsdEncodingsAgree(rows: seq<Record>)
    ensures MonetaryMode(rows) == SingleUsd <==> CompatibleUsdTotal(MeasuresOf(rows)).Some?
    ensures Coalesce(UsdColumn(rows), 0.0) == Coalesce(CompatibleUsdTotal(MeasuresOf(rows)), 0.0)
  {
    hide MonetaryMode, UsdColumn, MeasuresOf, CompatibleUsdTotal;
    MonetaryModeMeansCohort(rows);
    CompatibleMeansCohort(rows);
  }

  /** In a USD cohort the nullable column of any part of it is the part's plain sum. */
  lemma UsdColumnOfPart(rows: seq<Record>, part: seq<Record>)
    requires CompatibleUsdTotal(MeasuresOf(rows)).Some?
    requires forall r <- part :: r in rows
    ensures UsdColumn(part) == Some(Total(part, ValueOf))
  {
    hide UsdColumn, MeasuresOf, CompatibleUsdTotal;
    MonetaryModeMeansCohort(part);
    CompatibleMeansCohort(rows);
    NothingValued(part);
  }

  lemma {:induction false} NothingValued(rows: seq<Record>)
    ensures (forall r <- rows :: r.value.None?) ==> Total(rows, ValueOf) == 0.0
  {
    if rows != [] {
      NothingValued(rows[1..]);
      assert rows[0] in rows && forall r <- rows[1..] :: r in rows;
    }
  }

  ghost predicate HasUnknownBucket(totals: map<string, WeightTotal>) {
    exists u :: u in totals && totals[u].factor == None
  }

  /** `weight_mode` is 'unavailable' exactly when some net-weight bucket is unknown. */
  lemma WeightEncodingsAgree(rows: seq<Record>)
    ensures WeightModeOf(rows) == WeightUnavailable <==> HasUnknownBucket(MeasuresOf(rows).netWeights)
  {
    hide LacksKg, WeightTotals, HasUnknownBucket, CurrencyTotals, PairTotals, ExclusionsOf;
    SelectsNothing(rows, LacksKg);
    CountIsLength(rows, NetOf);
    UnknownBucketMeansLacksKg(rows);
    if r :| r in rows && LacksKg(r) {
      NonNullMembers(rows, NetOf, r);
      LacksKgMeansUnknown(r);
    }
  }

  lemma UnknownBucketMeansLacksKg(rows: seq<Record>)
    ensures HasUnknownBucket(WeightTotals(rows, NetOf)) <==> exists r :: r in rows && LacksKg(r)
  {
    hide NonNull, Bucket, WeightFactor, LacksKg;
    var weighed, totals := NonNull(rows, NetOf), WeightTotals(rows, NetOf);
    if u :| u in totals && totals[u].factor == None {
      var r :| r in weighed && UnitBucket(r) == u;
      NonNullMembers(rows, NetOf, r);
      LacksKgMeansUnknown(r);
    }
    if r :| r in rows && LacksKg(r) {
      NonNullMembers(rows, NetOf, r);
      LacksKgMeansUnknown(r);
      assert UnitBucket(r) in totals;
    }
  }

  lemma LacksKgMeansUnknown(r: Record)
    ensures LacksKg(r) <==> r.net.Some? && WeightFactor(UnitBucket(r)) == None
  {
    FactorOfBucket(r.unit);
  }
}
