/** Value per net kilogram: the priced rows grouped into one cohort per currency, and the
    count of valued rows no cohort can take. */
module Prices {
  import opened Basics
  import opened Sql
  import opened Records
  import opened Measures

  function KnownCurrency(r: Record): Truth {
    And(Known(Coalesce(r.currency, "") != ""), Not(StartsWith(r.currency, UNKNOWN)))
  }

  predicate IsPriced(r: Record) {
    Holds(And(And(IsNotNull(r.value), Positive(NetKg(r))), KnownCurrency(r)))
  }

  predicate IsExcluded(r: Record) {
    Holds(And(IsNotNull(r.value),
              Or(Or(Or(Not(KnownCurrency(r)), IsNull(r.net)), IsNull(NetKg(r))), NotPositive(NetKg(r)))))
  }

  predicate CanPrice(r: Record) {
    r.value.Some? && NetKg(r).Some? && NetKg(r).value > 0.0
  }

  function Price(r: Record): real
    requires CanPrice(r)
  {
    r.value.value / NetKg(r).value
  }

  datatype Cohort = Cohort(
    count: nat, average: real, minimum: real, maximum: real, weightedAverage: Option<real>,
    numerator: real, denominator: real)

  function Smaller(a: real, b: real): real {
    if a <= b then a else b
  }

  function MinPrice(rows: seq<Record>): real
    requires rows != [] && forall r <- rows :: CanPrice(r)
  {
    if |rows| == 1 then Price(rows[0]) else Smaller(Price(rows[0]), MinPrice(rows[1..]))
  }

  function MaxPrice(rows: seq<Record>): real
    requires rows != [] && forall r <- rows :: CanPrice(r)
  {
    if |rows| == 1 then Price(rows[0]) else -Smaller(-Price(rows[0]), -MaxPrice(rows[1..]))
  }

  function PriceTotal(rows: seq<Record>): real
    requires forall r <- rows :: CanPrice(r)
  {
    if rows == [] then 0.0 else Price(rows[0]) + PriceTotal(rows[1..])
  }

  /** `SUM(value) / NULLIF(SUM(kg), 0)`. */
  function Weighted(value: real, kg: real): Option<real> {
    if kg == 0.0 then None else Some(value / kg)
  }

  function CohortOf(rows: seq<Record>): Cohort
    requires rows != [] && forall r <- rows :: CanPrice(r)
  {
    Cohort(|rows|, PriceTotal(rows) / |rows| as real, MinPrice(rows), MaxPrice(rows),
           Weighted(Total(rows, ValueOf), Total(rows, NetKg)), Total(rows, ValueOf), Total(rows, NetKg))
  }

  function CurrencyKey(r: Record): Option<string> {
    r.currency
  }

  function Priced(rows: seq<Record>): seq<Record> {
    Where(rows, IsPriced)
  }

  lemma CohortRows(rows: seq<Record>, c: Option<string>)
    ensures forall r <- Group(Priced(rows), CurrencyKey, c) :: r in rows && IsPriced(r) && CanPrice(r)
    ensures c in GroupKeys(Priced(rows), CurrencyKey) ==> Group(Priced(rows), CurrencyKey, c) != []
  {
    hide IsPriced, NetKg;
    var priced := Priced(rows);
    forall r ensures r in Group(priced, CurrencyKey, c) <==> r in rows && IsPriced(r) && CurrencyKey(r) == c {
      GroupMembers(priced, CurrencyKey, c, r);
      WhereMembers(rows, IsPriced, r);
    }
    forall r | IsPriced(r) ensures CanPrice(r) {
      PricedCanPrice(r);
    }
    if c in GroupKeys(priced, CurrencyKey) {
      var r :| r in priced && CurrencyKey(r) == c;
      GroupMembers(priced, CurrencyKey, c, r);
    }
  }

  lemma PricedCanPrice(r: Record)
    requires IsPriced(r)
    ensures CanPrice(r)
  {
    hide NetKg, KnownCurrency;
  }

  ghost function Cohorts(rows: seq<Record>): map<Option<string>, Cohort> {
    var priced := Priced(rows);
    map c | c in GroupKeys(priced, CurrencyKey) :: CohortRows(rows, c); CohortOf(Group(priced, CurrencyKey, c))
  }

  function ExcludedRows(rows: seq<Record>): nat {
    |Where(rows, IsExcluded)|
  }

  /** The two WHERE clauses are each other's complement on valued rows, NULLs included. */
  lemma PricedOrExcluded(r: Record)
    ensures IsPriced(r) || IsExcluded(r) <==> r.value.Some?
    ensures !(IsPriced(r) && IsExcluded(r))
  {
    hide WeightFactor;
    assert r.currency == None ==> KnownCurrency(r) == False;
    assert KnownCurrency(r) != Null;
  }

  lemma CohortIs(rows: seq<Record>, c: Option<string>)
    requires c in Cohorts(rows)
    ensures var group := Group(Priced(rows), CurrencyKey, c);
      && group != [] && (forall r <- group :: CanPrice(r))
      && Cohorts(rows)[c] == CohortOf(group) && Cohorts(rows)[c].count == |group|
  {
    hide CanPrice, IsPriced, Price, MinPrice, MaxPrice, PriceTotal, Group;
    CohortRows(rows, c);
  }

  lemma CohortKeys(rows: seq<Record>)
    ensures Cohorts(rows).Keys == GroupKeys(Priced(rows), CurrencyKey)
  {
    hide CanPrice, IsPriced, Price, MinPrice, MaxPrice, PriceTotal, Group, Priced;
  }

  /** Cohort counts plus the excluded rows are all the valued rows. */
  lemma CohortsPartitionValuedRows(rows: seq<Record>)
    ensures var cohorts := Cohorts(rows);
      CountOver(cohorts.Keys, c => if c in cohorts then cohorts[c].count else 0) + ExcludedRows(rows) ==
        |NonNull(rows, ValueOf)|
  {
    hide IsPriced, IsExcluded, Cohorts, CohortOf, CanPrice, Group, GroupKeys, GroupsIn, NonNull, CountOver;
    var cohorts := Cohorts(rows);
    CohortKeys(rows);
    forall c | c in cohorts ensures cohorts[c].count == |Group(Priced(rows), CurrencyKey, c)| {
      CohortIs(rows, c);
    }
    GroupsConserve(Priced(rows), CurrencyKey, cohorts.Keys, ValueOf);
    AllGroups(Priced(rows), CurrencyKey, cohorts.Keys);
    CountOverCongruent(cohorts.Keys, c => if c in cohorts then cohorts[c].count else 0,
                       c => |Group(Priced(rows), CurrencyKey, c)|);
    PricedAndExcludedRows(rows);
  }

  lemma PricedAndExcludedRows(rows: seq<Record>)
    ensures |Priced(rows)| + ExcludedRows(rows) == |NonNull(rows, ValueOf)|
  {
    hide IsPriced, IsExcluded;
    forall r | r in rows ensures (IsPriced(r) || IsExcluded(r) <==> ValueOf(r).Some?) && !(IsPriced(r) && IsExcluded(r)) {
      PricedOrExcluded(r);
    }
    CountsPartition(rows, ValueOf, IsPriced, IsExcluded, r => false);
    WhereNone(rows, r => false);
  }

  // ---------- bounds ----------

  lemma {:induction false} PriceBounds(rows: seq<Record>)
    requires rows != [] && forall r <- rows :: CanPrice(r)
    ensures forall r <- rows :: MinPrice(rows) <= Price(r) <= MaxPrice(rows)
    ensures exists r :: r in rows && Price(r) == MinPrice(rows)
    ensures exists r :: r in rows && Price(r) == MaxPrice(rows)
  {
    hide CanPrice, Price;
    assert rows[0] in rows && forall r :: r in rows <==> r == rows[0] || r in rows[1..];
    if |rows| > 1 {
      PriceBounds(rows[1..]);
    }
  }

  lemma PriceTimesKg(r: Record, low: real, high: real)
    requires CanPrice(r) && low <= Price(r) <= high
    ensures Scaled(low, NetKg(r).value) <= r.value.value <= Scaled(high, NetKg(r).value)
  {
    hide NetKg;
    var kg := NetKg(r).value;
    assert Price(r) * kg == r.value.value;
    assert (Price(r) - low) * kg >= 0.0;
    assert (high - Price(r)) * kg >= 0.0;
  }

  lemma {:induction false} TotalsBetween(rows: seq<Record>, low: real, high: real)
    requires forall r <- rows :: CanPrice(r) && low <= Price(r) <= high
    ensures Scaled(low, Total(rows, NetKg)) <= Total(rows, ValueOf) <= Scaled(high, Total(rows, NetKg))
    ensures rows != [] ==> Total(rows, NetKg) > 0.0
  {
    hide NetKg, Price, Scaled;
    if rows == [] {
      ScaledUnits(low);
      ScaledUnits(high);
    } else {
      var r, rest := rows[0], rows[1..];
      assert r in rows && forall r <- rest :: r in rows;
      TotalsBetween(rest, low, high);
      PriceTimesKg(r, low, high);
      ScaledSum(low, NetKg(r).value, Total(rest, NetKg));
      ScaledSum(high, NetKg(r).value, Total(rest, NetKg));
    }
  }

  lemma {:induction false} PriceTotalBetween(rows: seq<Record>, low: real, high: real)
    requires forall r <- rows :: CanPrice(r) && low <= Price(r) <= high
    ensures Scaled(low, |rows| as real) <= PriceTotal(rows) <= Scaled(high, |rows| as real)
  {
    hide CanPrice, Price, Scaled;
    ScaledUnits(low);
    ScaledUnits(high);
    if rows != [] {
      var r, rest := rows[0], rows[1..];
      assert r in rows && forall r <- rest :: r in rows;
      PriceTotalBetween(rest, low, high);
      assert |rows| as real == 1.0 + |rest| as real;
      ScaledSum(low, 1.0, |rest| as real);
      ScaledSum(high, 1.0, |rest| as real);
    }
  }

  lemma QuotientBetween(low: real, high: real, n: real, d: real)
    requires d > 0.0 && Scaled(low, d) <= n <= Scaled(high, d)
    ensures low <= n / d <= high
  {
    assert n / d * d == n;
    SignOfProduct(n / d - low, d);
    SignOfProduct(high - n / d, d);
  }

  lemma SignOfProduct(x: real, d: real)
    requires d > 0.0
    ensures x * d >= 0.0 ==> x >= 0.0
  {
    if x < 0.0 {
      assert -x * d > 0.0;
    }
  }

  lemma CohortIsBounded(group: seq<Record>)
    requires group != [] && forall r <- group :: CanPrice(r)
    ensures var cohort := CohortOf(group);
      && cohort.weightedAverage.Some?
      && cohort.minimum <= cohort.weightedAverage.value <= cohort.maximum
      && cohort.minimum <= cohort.average <= cohort.maximum
  {
    hide CanPrice, Price, MinPrice, MaxPrice, PriceTotal, NetKg, Total, Scaled;
    var low, high := MinPrice(group), MaxPrice(group);
    PriceBounds(group);
    TotalsBetween(group, low, high);
    PriceTotalBetween(group, low, high);
    QuotientBetween(low, high, Total(group, ValueOf), Total(group, NetKg));
    QuotientBetween(low, high, PriceTotal(group), |group| as real);
  }

  /** Each cohort has a weighted average, and both averages lie between its lowest and its
      highest price, which are prices of rows of the cohort. */
  lemma CohortsStayBounded(rows: seq<Record>, c: Option<string>)
    requires c in Cohorts(rows)
    ensures var cohort, group := Cohorts(rows)[c], Group(Priced(rows), CurrencyKey, c);
      && cohort.weightedAverage.Some?
      && cohort.minimum <= cohort.weightedAverage.value <= cohort.maximum
      && cohort.minimum <= cohort.average <= cohort.maximum
      && (exists r :: r in group && CanPrice(r) && Price(r) == cohort.minimum)
      && (exists r :: r in group && CanPrice(r) && Price(r) == cohort.maximum)
      && (forall r <- group :: CanPrice(r) && cohort.minimum <= Price(r) <= cohort.maximum)
  {
    hide CanPrice, Price, MinPrice, MaxPrice, PriceTotal, Total, Cohorts, Priced, Group;
    CohortIs(rows, c);
    CohortIsBounded(Group(Priced(rows), CurrencyKey, c));
    PriceBounds(Group(Priced(rows), CurrencyKey, c));
  }
}
