/** The projected record table: the columns the analytics queries read. */
module Records {
  import opened Basics
  import opened Sql

  datatype Record = Record(
    id: int,
    year: Option<int>,
    month: Option<string>,
    declaration: Option<string>,
    sender: Option<string>,
    recipient: Option<string>,
    edrpou: Option<string>,
    trademark: Option<string>,
    productCode: Option<string>,
    description: Option<string>,
    origin: Option<string>,
    dispatch: Option<string>,
    trade: Option<string>,
    value: Option<real>,
    net: Option<real>,
    gross: Option<real>,
    quantity: Option<real>,
    currency: Option<string>,
    unit: Option<string>,
    dupFirstFile: Option<string>)

  /** `UNKNOWN_CURRENCY_KEY` and `UNKNOWN_UNIT_KEY`, as a bucket and as a prefix. */
  const UNKNOWN := "__unknown__"

  const USD := "USD"

  /** Kilograms in one unit of a recognized weight unit. */
  function WeightFactor(unit: string): (factor: Option<real>)
    ensures factor.Some? ==> factor.value > 0.0 && unit != "" && !(UNKNOWN <= unit)
  {
    if unit == "kg" then Some(1.0)
    else if unit == "g" then Some(0.001)
    else if unit == "tonne" then Some(1000.0)
    else if unit == "lb" then Some(0.45359237)
    else None
  }

  /** A kilogram is a thousand grams, a tonne a thousand kilograms and a pound 453.59237 grams,
      and no other unit is recognized. */
  lemma UnitsAreConsistent(unit: string)
    ensures var kg, g, tonne, lb := WeightFactor("kg"), WeightFactor("g"), WeightFactor("tonne"), WeightFactor("lb");
      && kg == Some(1.0) && g.Some? && tonne.Some? && lb.Some?
      && 1000.0 * g.value == kg.value && tonne.value == 1000.0 * kg.value && lb.value == 453.59237 * g.value
    ensures WeightFactor(unit).Some? <==> unit in {"kg", "g", "tonne", "lb"}
  {
  }

  function Scaled(factor: real, x: real): real {
    factor * x
  }

  lemma ScaledSum(f: real, a: real, b: real)
    ensures Scaled(f, a + b) == Scaled(f, a) + Scaled(f, b)
  {
  }

  lemma ScaledUnits(f: real)
    ensures Scaled(f, 0.0) == 0.0 && Scaled(f, 1.0) == f
  {
  }

  /** `normalized_weight_sql`. */
  function InKg(unit: Option<string>, weight: Option<real>): Option<real> {
    if unit == None || weight == None || WeightFactor(unit.value) == None then None
    else Some(Scaled(WeightFactor(unit.value).value, weight.value))
  }

  function NetKg(r: Record): Option<real> {
    InKg(r.unit, r.net)
  }

  function GrossKg(r: Record): Option<real> {
    InKg(r.unit, r.gross)
  }

  /** `COALESCE(NULLIF(key, ''), '__unknown__')`. */
  function Bucket(key: Option<string>): string {
    Coalesce(NullIfBlank(key), UNKNOWN)
  }

  /** `COALESCE(key, '') = '' OR starts_with(key, '__unknown__')`. */
  function Unstated(key: Option<string>): Truth {
    Or(Known(Coalesce(key, "") == ""), StartsWith(key, UNKNOWN))
  }

  /** `currency_is_known`. */
  predicate CurrencyKnown(bucket: string) {
    bucket != "" && !(UNKNOWN <= bucket)
  }

  lemma UnstatedMeansUnknownBucket(key: Option<string>)
    ensures Holds(Unstated(key)) <==> !CurrencyKnown(Bucket(key))
  {
  }

  lemma FactorOfBucket(key: Option<string>)
    ensures WeightFactor(Bucket(key)) == if key == None then None else WeightFactor(key.value)
    ensures Holds(Unstated(key)) ==> WeightFactor(Bucket(key)) == None
  {
  }

  /** A weight is positive in kilograms exactly when it is positive in a recognized unit. */
  lemma PositiveInKg(unit: Option<string>, weight: Option<real>)
    ensures Holds(Positive(InKg(unit, weight))) <==>
      Holds(Positive(weight)) && WeightFactor(Bucket(unit)).Some?
  {
    hide WeightFactor, Bucket;
    FactorOfBucket(unit);
    if unit.Some? && weight.Some? && WeightFactor(unit.value).Some? {
      SameSign(weight.value, WeightFactor(unit.value).value);
    }
  }

  lemma SameSign(w: real, f: real)
    requires f > 0.0
    ensures Scaled(f, w) > 0.0 <==> w > 0.0
  {
    if w > 0.0 {
      assert f * w > 0.0;
    } else {
      assert f * w <= 0.0;
    }
  }
}
