/** Which source column feeds which storage column: the plan of the detected table, edited
    by the user's overrides and fixed values, and what a row then turns into. */
module ColumnMapping {
  import opened Basics
  import opened Text

  datatype ColSrc =
    | Missing
    | Cell(index: nat)
    | Fixed(value: string)
    | Join(parts: seq<nat>, separator: string)

  datatype SemanticField =
    | Date | DeclarationNumber | CompanyCode | Sender | Recipient | ProductCode | Description | Trademark
    | Country | OriginCountry | DispatchCountry | TradeCountry | Quantity | NetWeight | GrossWeight
    | Value | Currency | WeightUnit

  const COLUMN_COUNT := 41
  const DATE_COL := 4
  const UNIT_COL := 17
  const CONTRACT_COL := 28
  const MAX_FIXED_VALUE_CHARS := 32

  /** The names of the storage columns. */
  const COLUMNS: seq<string> := [
    "clearance_time", "customs_office", "declaration_type", "declaration_number", "declaration_date", "sender",
    "edrpou", "recipient", "item_number", "product_code", "description", "trade_country", "dispatch_country",
    "origin_country", "delivery_terms", "delivery_place", "quantity", "unit", "gross_kg", "net_kg",
    "declaration_weight", "currency_control_value", "movement_feature", "field_43", "field_43_01", "rfv_usd_kg",
    "unit_weight", "weight_difference", "contract", "field_3001", "field_3002", "field_9610", "trademark",
    "rmv_net_usd_kg", "rmv_usd_extra_unit", "rmv_gross_usd_kg", "zed_purpose", "min_base_usd_kg",
    "min_base_difference", "preferential", "full_rate"]

  /** `SEMANTIC_COLUMNS`. */
  function StorageName(s: SemanticField): Option<string> {
    match s
    case Date => Some("declaration_date")
    case DeclarationNumber => Some("declaration_number")
    case Sender => Some("sender")
    case CompanyCode => Some("edrpou")
    case Recipient => Some("recipient")
    case ProductCode => Some("product_code")
    case Description => Some("description")
    case TradeCountry => Some("trade_country")
    case DispatchCountry => Some("dispatch_country")
    case OriginCountry => Some("origin_country")
    case Quantity => Some("quantity")
    case GrossWeight => Some("gross_kg")
    case NetWeight => Some("net_kg")
    case Value => Some("currency_control_value")
    case Trademark => Some("trademark")
    case _ => None
  }

  /** The storage column of a semantic, by its position in `COLUMNS`. */
  function ColumnForSemantic(s: SemanticField): (target: Option<nat>)
    ensures target.Some? ==> target.value < COLUMN_COUNT && target.value != UNIT_COL && target.value != CONTRACT_COL
  {
    match s
    case Date => Some(DATE_COL)
    case DeclarationNumber => Some(3)
    case Sender => Some(5)
    case CompanyCode => Some(6)
    case Recipient => Some(7)
    case ProductCode => Some(9)
    case Description => Some(10)
    case TradeCountry => Some(11)
    case DispatchCountry => Some(12)
    case OriginCountry => Some(13)
    case Quantity => Some(16)
    case GrossWeight => Some(18)
    case NetWeight => Some(19)
    case Value => Some(21)
    case Trademark => Some(32)
    case _ => None
  }

  /** Each semantic with a storage column is kept in the one of that name. */
  lemma TargetsAreNamed(s: SemanticField)
    ensures |COLUMNS| == COLUMN_COUNT
    ensures ColumnForSemantic(s).Some? <==> StorageName(s).Some?
    ensures ColumnForSemantic(s).Some? ==> COLUMNS[ColumnForSemantic(s).value] == StorageName(s).value
    ensures COLUMNS[CONTRACT_COL] == "contract" && COLUMNS[UNIT_COL] == "unit"
    ensures COLUMNS[DATE_COL] == "declaration_date"
  {
  }

  lemma TargetsAreDistinct(a: SemanticField, b: SemanticField)
    ensures ColumnForSemantic(a).Some? && ColumnForSemantic(a) == ColumnForSemantic(b) ==> a == b
  {
  }

  // ---------- editing the mapping ----------

  function Without(parts: seq<nat>, index: nat): seq<nat> {
    if parts == [] then []
    else (if parts[0] == index then [] else [parts[0]]) + Without(parts[1..], index)
  }

  /** `remove_source_from_mapping`. */
  function RemoveSource(src: ColSrc, index: nat): ColSrc {
    match src
    case Missing => Missing
    case Fixed(value) => Fixed(value)
    case Cell(i) => if i == index then Missing else Cell(i)
    case Join(parts, separator) =>
      var remaining := Without(parts, index);
      if remaining == [] then Missing
      else if |remaining| == 1 then Cell(remaining[0])
      else Join(remaining, separator)
  }

  /** Whether a storage column reads a source column. */
  predicate Reads(src: ColSrc, index: nat) {
    match src
    case Cell(i) => i == index
    case Join(parts, _) => index in parts
    case _ => false
  }

  lemma {:induction false} WithoutMembers(parts: seq<nat>, index: nat, i: nat)
    ensures i in Without(parts, index) <==> i in parts && i != index
  {
    if parts != [] {
      WithoutMembers(parts[1..], index, i);
      assert i in parts <==> i == parts[0] || i in parts[1..];
    }
  }

  /** Removing a source column removes it and nothing else. */
  lemma RemovingReads(src: ColSrc, index: nat, i: nat)
    ensures Reads(RemoveSource(src, index), i) <==> Reads(src, i) && i != index
  {
    if src.Join? {
      WithoutMembers(src.parts, index, i);
    }
  }

  /** A join reads at least two columns. */
  predicate IsProper(src: ColSrc) {
    src.Join? ==> |src.parts| >= 2
  }

  /** Removing a column keeps the others in order and turns a join of one into a plain cell, so
      that column is taken whole. */
  lemma RemovingKeepsTheRest(src: ColSrc, index: nat)
    requires IsProper(src)
    ensures IsProper(RemoveSource(src, index))
    ensures !Reads(src, index) && !src.Join? ==> RemoveSource(src, index) == src
    ensures src.Join? ==>
      match RemoveSource(src, index)
      case Missing => Without(src.parts, index) == []
      case Cell(i) => Without(src.parts, index) == [i]
      case Join(parts, separator) => Without(src.parts, index) == parts && separator == src.separator
      case _ => false
  {
  }

  /** What is left keeps its order: leaving out a column leaves out its places only. */
  lemma {:induction false} WithoutConcat(a: seq<nat>, b: seq<nat>, index: nat)
    ensures Without(a + b, index) == Without(a, index) + Without(b, index)
    ensures forall i: nat :: Without([i], index) == if i == index then [] else [i]
  {
    if a == [] {
      assert a + b == b;
    } else {
      assert (a + b)[1..] == a[1..] + b;
      WithoutConcat(a[1..], b, index);
    }
  }

  function RemoveFromAll(mapping: seq<ColSrc>, index: nat): seq<ColSrc> {
    seq(|mapping|, t requires 0 <= t < |mapping| => RemoveSource(mapping[t], index))
  }

  /** The entries of the overrides map in key order. */
  datatype Override = Override(index: nat, semantic: Option<SemanticField>)

  predicate InKeyOrder(overrides: seq<Override>) {
    forall i, j :: 0 <= i < j < |overrides| ==> overrides[i].index < overrides[j].index
  }

  function Target(o: Override): Option<nat> {
    if o.semantic.None? then None else ColumnForSemantic(o.semantic.value)
  }

  function WithOverride(mapping: seq<ColSrc>, o: Override): seq<ColSrc>
    requires |mapping| == COLUMN_COUNT
  {
    var removed := RemoveFromAll(mapping, o.index);
    if Target(o).Some? then removed[Target(o).value := Cell(o.index)] else removed
  }

  function WithOverrides(mapping: seq<ColSrc>, overrides: seq<Override>): (edited: seq<ColSrc>)
    requires |mapping| == COLUMN_COUNT
    ensures |edited| == COLUMN_COUNT
  {
    if overrides == [] then mapping
    else WithOverride(WithOverrides(mapping, overrides[..|overrides| - 1]), overrides[|overrides| - 1])
  }

  /** No column outside the table, and no two columns for one storage column. */
  predicate Compatible(width: nat, overrides: seq<Override>) {
    && (forall o <- overrides :: o.index < width)
    && (forall i, j :: 0 <= i < j < |overrides| && Target(overrides[i]).Some? ==>
          Target(overrides[i]) != Target(overrides[j]))
  }

  /** `apply_semantic_overrides`. */
  method ApplySemanticOverrides(width: nat, plan: seq<ColSrc>, overrides: seq<Override>)
    returns (result: Result<seq<ColSrc>>)
    requires |plan| == COLUMN_COUNT
    ensures result.Ok? <==> Compatible(width, overrides)
    ensures result.Ok? ==> result.value == WithOverrides(plan, overrides)
  {
    hide RemoveSource, ColumnForSemantic;
    var mapping := plan;
    var targets: map<nat, nat> := map[];
    var next := 0;
    while next < |overrides|
      invariant 0 <= next <= |overrides| && |mapping| == COLUMN_COUNT
      invariant mapping == WithOverrides(plan, overrides[..next])
      invariant forall i :: 0 <= i < next ==> overrides[i].index < width
      invariant forall i :: 0 <= i < next && Target(overrides[i]).Some? ==> Target(overrides[i]).value in targets
      invariant forall t <- targets :: exists i :: 0 <= i < next && Target(overrides[i]) == Some(t)
      invariant forall i, j :: 0 <= i < j < next && Target(overrides[i]).Some? ==>
                  Target(overrides[i]) != Target(overrides[j])
    {
      var o := overrides[next];
      assert overrides[..next + 1][..next] == overrides[..next];
      if o.index >= width {
        return Err("outside the detected table");
      }
      ghost var before := mapping;
      var t := 0;
      while t < |mapping|
        invariant 0 <= t <= |mapping| == COLUMN_COUNT
        invariant forall i :: 0 <= i < t ==> mapping[i] == RemoveSource(before[i], o.index)
        invariant forall i :: t <= i < |mapping| ==> mapping[i] == before[i]
      {
        mapping := mapping[t := RemoveSource(mapping[t], o.index)];
        t := t + 1;
      }
      assert mapping == RemoveFromAll(before, o.index);
      var target := Target(o);
      if target.Some? {
        if target.value in targets {
          return Err("mapped twice");
        }
        targets := targets[target.value := o.index];
        mapping := mapping[target.value := Cell(o.index)];
      }
      assert mapping == WithOverride(before, o);
      next := next + 1;
    }
    assert overrides[..next] == overrides;
    result := Ok(mapping);
  }

  lemma OverrideStep(mapping: seq<ColSrc>, o: Override, t: nat, i: nat)
    requires |mapping| == COLUMN_COUNT && t < COLUMN_COUNT
    ensures WithOverride(mapping, o)[t] ==
      if Target(o) == Some(t) then Cell(o.index) else RemoveSource(mapping[t], o.index)
    ensures Reads(WithOverride(mapping, o)[t], i) <==>
      if Target(o) == Some(t) then i == o.index else Reads(mapping[t], i) && i != o.index
  {
    RemovingReads(mapping[t], o.index, i);
  }

  /** An override's column is read by its storage column alone, which takes it whole, or by
      none when the override has no storage column. */
  lemma {:induction false} OverrideLands(plan: seq<ColSrc>, overrides: seq<Override>, width: nat, k: nat, t: nat)
    requires |plan| == COLUMN_COUNT && t < COLUMN_COUNT && k < |overrides|
    requires InKeyOrder(overrides) && Compatible(width, overrides)
    ensures var src := WithOverrides(plan, overrides)[t];
      && (Reads(src, overrides[k].index) <==> Target(overrides[k]) == Some(t))
      && (Target(overrides[k]) == Some(t) ==> src == Cell(overrides[k].index))
  {
    hide Target, Reads;
    var before, last := overrides[..|overrides| - 1], overrides[|overrides| - 1];
    OverrideStep(WithOverrides(plan, before), last, t, overrides[k].index);
    if k < |before| {
      assert overrides[k].index < last.index;
      assert Target(overrides[k]).Some? ==> Target(overrides[k]) != Target(last);
      CompatiblePrefix(width, overrides);
      OverrideLands(plan, before, width, k, t);
      OtherCellStays(overrides[k].index, last.index);
    }
  }

  lemma CompatiblePrefix(width: nat, overrides: seq<Override>)
    requires overrides != [] && InKeyOrder(overrides) && Compatible(width, overrides)
    ensures var before := overrides[..|overrides| - 1]; InKeyOrder(before) && Compatible(width, before)
  {
    hide Target;
    var before := overrides[..|overrides| - 1];
    assert forall o <- before :: o in overrides;
  }

  /** A column without an override keeps every reader that is not an override's target. */
  lemma {:induction false} OthersStay(plan: seq<ColSrc>, overrides: seq<Override>, i: nat, t: nat)
    requires |plan| == COLUMN_COUNT && t < COLUMN_COUNT
    requires forall o <- overrides :: o.index != i
    ensures Reads(WithOverrides(plan, overrides)[t], i) <==>
      Reads(plan[t], i) && forall o <- overrides :: Target(o) != Some(t)
  {
    if overrides != [] {
      hide Target, Reads;
      var before, last := overrides[..|overrides| - 1], overrides[|overrides| - 1];
      assert forall o :: o in overrides <==> o in before || o == last;
      OthersStay(plan, before, i, t);
      OverrideStep(WithOverrides(plan, before), last, t, i);
    }
  }

  lemma OtherCellStays(i: nat, index: nat)
    requires i != index
    ensures RemoveSource(Cell(i), index) == Cell(i)
  {
  }

  // ---------- fixed values ----------

  /** The entries of the fixed-value map in key order. */
  datatype FixedValue = FixedValue(semantic: SemanticField, value: string)

  function FixedTarget(s: SemanticField): Option<nat> {
    match s
    case Currency => Some(CONTRACT_COL)
    case WeightUnit => Some(UNIT_COL)
    case _ => None
  }

  /** `validate_fixed_value`. */
  predicate IsFixable(f: FixedValue) {
    && (f.semantic == Currency || f.semantic == WeightUnit)
    && Trim(f.value) != "" && |Trim(f.value)| <= MAX_FIXED_VALUE_CHARS
  }

  /** The values come from a map, so no semantic has two. */
  predicate AreDistinct(values: seq<FixedValue>) {
    forall i, j :: 0 <= i < j < |values| ==> values[i].semantic != values[j].semantic
  }

  predicate IsGiven(values: seq<FixedValue>, s: SemanticField) {
    exists f :: f in values && f.semantic == s
  }

  /** The contract column holds the given currency and the unit column the given weight unit;
      a column without a given value is as it was. */
  ghost predicate IsPinned(mapping: seq<ColSrc>, values: seq<FixedValue>, fixed: seq<ColSrc>)
    requires |mapping| == |fixed| == COLUMN_COUNT
  {
    && (forall f <- values :: f.semantic == Currency ==> fixed[CONTRACT_COL] == Fixed(Trim(f.value)))
    && (forall f <- values :: f.semantic == WeightUnit ==> fixed[UNIT_COL] == Fixed(Trim(f.value)))
    && (!IsGiven(values, Currency) ==> fixed[CONTRACT_COL] == mapping[CONTRACT_COL])
    && (!IsGiven(values, WeightUnit) ==> fixed[UNIT_COL] == mapping[UNIT_COL])
    && (forall t :: 0 <= t < COLUMN_COUNT && t != CONTRACT_COL && t != UNIT_COL ==> fixed[t] == mapping[t])
  }

  lemma {:induction false} FixedIsPinned(mapping: seq<ColSrc>, values: seq<FixedValue>)
    requires |mapping| == COLUMN_COUNT && (forall f <- values :: IsFixable(f)) && AreDistinct(values)
    ensures IsPinned(mapping, values, WithFixed(mapping, values))
  {
    hide Trim;
    if values != [] {
      var before, last := values[..|values| - 1], values[|values| - 1];
      assert forall f :: f in values <==> f in before || f == last;
      assert last in values && IsFixable(last);
      FixedIsPinned(mapping, before);
      assert forall f <- before :: f.semantic != last.semantic;
    }
  }

  predicate AreFixable(values: seq<FixedValue>) {
    |values| <= 2 && forall f <- values :: IsFixable(f)
  }

  function WithFixed(mapping: seq<ColSrc>, values: seq<FixedValue>): (fixed: seq<ColSrc>)
    requires |mapping| == COLUMN_COUNT && forall f <- values :: IsFixable(f)
    ensures |fixed| == COLUMN_COUNT
    ensures forall t :: 0 <= t < COLUMN_COUNT && t != UNIT_COL && t != CONTRACT_COL ==> fixed[t] == mapping[t]
  {
    if values == [] then mapping
    else
      var last := values[|values| - 1];
      assert last in values && IsFixable(last);
      WithFixed(mapping, values[..|values| - 1])[FixedTarget(last.semantic).value := Fixed(Trim(last.value))]
  }

  /** `apply_fixed_values`: all values are validated before the first is applied. */
  method ApplyFixedValues(mapping: seq<ColSrc>, values: seq<FixedValue>) returns (result: Result<seq<ColSrc>>)
    requires |mapping| == COLUMN_COUNT
    ensures result.Ok? <==> AreFixable(values)
    ensures result.Ok? <==> |values| <= 2 && forall f <- values ::
              f.semantic in {Currency, WeightUnit} && 0 < |Trim(f.value)| <= MAX_FIXED_VALUE_CHARS
    ensures result.Ok? ==> result.value == WithFixed(mapping, values)
    ensures result.Ok? && AreDistinct(values) ==> IsPinned(mapping, values, result.value)
  {
    hide Trim;
    if |values| > 2 {
      return Err("at most two fixed values");
    }
    var next := 0;
    while next < |values|
      invariant 0 <= next <= |values|
      invariant forall i :: 0 <= i < next ==> IsFixable(values[i])
    {
      if !IsFixable(values[next]) {
        return Err("not a fixed value");
      }
      next := next + 1;
    }
    var fixed := mapping;
    next := 0;
    while next < |values|
      invariant 0 <= next <= |values|
      invariant fixed == WithFixed(mapping, values[..next])
    {
      assert values[..next + 1][..next] == values[..next];
      fixed := fixed[FixedTarget(values[next].semantic).value := Fixed(Trim(values[next].value))];
      next := next + 1;
    }
    assert values[..next] == values;
    if AreDistinct(values) {
      FixedIsPinned(mapping, values);
    }
    result := Ok(fixed);
  }

  /** A column overridden with a semantic that has a storage column is taken whole by the one
      of that name. */
  lemma NamedOverrideLands(plan: seq<ColSrc>, overrides: seq<Override>, values: seq<FixedValue>, width: nat, k: nat)
    requires |plan| == COLUMN_COUNT && AreFixable(values) && k < |overrides|
    requires InKeyOrder(overrides) && Compatible(width, overrides)
    requires overrides[k].semantic.Some? && StorageName(overrides[k].semantic.value).Some?
    ensures exists t :: 0 <= t < COLUMN_COUNT && COLUMNS[t] == StorageName(overrides[k].semantic.value).value
              && WithFixed(WithOverrides(plan, overrides), values)[t] == Cell(overrides[k].index)
  {
    var s := overrides[k].semantic.value;
    TargetsAreNamed(s);
    var t := ColumnForSemantic(s).value;
    assert t != UNIT_COL && t != CONTRACT_COL;
    hide ColumnForSemantic, StorageName, WithFixed, WithOverrides;
    OverrideLands(plan, overrides, width, k, t);
    assert WithFixed(WithOverrides(plan, overrides), values)[t] == WithOverrides(plan, overrides)[t];
    assert COLUMNS[t] == StorageName(s).value;
  }

  // ---------- the columns that stay unmapped ----------

  predicate Consumed(mapping: seq<ColSrc>, i: nat) {
    Cell(i) in mapping
  }

  /** `unmapped_columns`: the source columns no storage column takes whole. */
  function Unmapped(width: nat, mapping: seq<ColSrc>): seq<nat> {
    if width == 0 then []
    else Unmapped(width - 1, mapping) + (if Consumed(mapping, width - 1) then [] else [width - 1])
  }

  lemma {:induction false} UnmappedMembers(width: nat, mapping: seq<ColSrc>)
    ensures forall i :: i in Unmapped(width, mapping) <==> 0 <= i < width && !Consumed(mapping, i)
    ensures forall a, b :: 0 <= a < b < |Unmapped(width, mapping)| ==>
              Unmapped(width, mapping)[a] < Unmapped(width, mapping)[b]
  {
    if width > 0 {
      UnmappedMembers(width - 1, mapping);
      var before := Unmapped(width - 1, mapping);
      assert forall a :: 0 <= a < |before| ==> before[a] in before;
    }
  }

  /** The mapping an import uses. */
  function FinalMapping(plan: seq<ColSrc>, overrides: seq<Override>, values: seq<FixedValue>): seq<ColSrc>
    requires |plan| == COLUMN_COUNT && AreFixable(values)
  {
    WithFixed(WithOverrides(plan, overrides), values)
  }

  /** In the mapping an import uses the given values stand, and every other column is as the
      overrides left it. */
  lemma FinalIsPinned(plan: seq<ColSrc>, overrides: seq<Override>, values: seq<FixedValue>)
    requires |plan| == COLUMN_COUNT && AreFixable(values) && AreDistinct(values)
    ensures IsPinned(WithOverrides(plan, overrides), values, FinalMapping(plan, overrides, values))
  {
    hide WithOverrides, IsPinned, WithFixed;
    FixedIsPinned(WithOverrides(plan, overrides), values);
  }

  /** An overridden column is read whole by its storage column and by no other, or it has
      none and is kept as an extra. */
  ghost predicate IsWhereOverridePutsIt(mapping: seq<ColSrc>, width: nat, o: Override)
    requires |mapping| == COLUMN_COUNT
  {
    && (o.index in Unmapped(width, mapping) <==> Target(o).None?)
    && (Target(o).Some? ==> mapping[Target(o).value] == Cell(o.index))
    && (forall t :: 0 <= t < COLUMN_COUNT && Reads(mapping[t], o.index) ==> Target(o) == Some(t))
  }

  /** No source column is lost: each one feeds a storage column or is kept as an extra,
      never both, and an overridden one is exactly where the override puts it. */
  lemma NoColumnIsLost(plan: seq<ColSrc>, overrides: seq<Override>, values: seq<FixedValue>, width: nat, i: nat)
    requires |plan| == COLUMN_COUNT && AreFixable(values) && i < width
    requires InKeyOrder(overrides) && Compatible(width, overrides)
    ensures var mapping := FinalMapping(plan, overrides, values);
      && (Consumed(mapping, i) <==> i !in Unmapped(width, mapping))
      && (forall o <- overrides :: o.index == i ==> IsWhereOverridePutsIt(mapping, width, o))
  {
    hide WithOverrides, WithFixed, ColumnForSemantic;
    var mapping := FinalMapping(plan, overrides, values);
    UnmappedMembers(width, mapping);
    forall o, t | o in overrides && o.index == i && 0 <= t < COLUMN_COUNT
      ensures Reads(mapping[t], i) ==> Target(o) == Some(t)
      ensures Target(o) == Some(t) ==> mapping[t] == Cell(i)
    {
      var k :| 0 <= k < |overrides| && overrides[k] == o;
      OverrideLands(plan, overrides, width, k, t);
      FixedReadsNothing(WithOverrides(plan, overrides), values, t, i);
    }
    forall o | o in overrides && o.index == i ensures Consumed(mapping, i) <==> Target(o).Some? {
      if Consumed(mapping, i) {
        var t :| 0 <= t < |mapping| && mapping[t] == Cell(i);
        assert Reads(mapping[t], i);
      }
    }
  }

  /** A storage column given a fixed value reads nothing; the others are as before. */
  lemma {:induction false} FixedReadsNothing(mapping: seq<ColSrc>, values: seq<FixedValue>, t: nat, i: nat)
    requires |mapping| == COLUMN_COUNT && (forall f <- values :: IsFixable(f)) && t < COLUMN_COUNT
    ensures WithFixed(mapping, values)[t] == mapping[t] || WithFixed(mapping, values)[t].Fixed?
    ensures Reads(WithFixed(mapping, values)[t], i) ==> Reads(mapping[t], i)
  {
    if values != [] {
      hide IsFixable, Trim;
      FixedReadsNothing(mapping, values[..|values| - 1], t, i);
    }
  }

  /** A mapping that reads no column beyond a width. */
  ghost predicate ReadsBelow(mapping: seq<ColSrc>, width: nat) {
    forall t: nat, i: nat :: t < |mapping| && Reads(mapping[t], i) ==> i < width
  }

  /** Overrides and fixed values keep a mapping within the table. */
  lemma FinalReadsBelow(plan: seq<ColSrc>, overrides: seq<Override>, values: seq<FixedValue>, width: nat)
    requires |plan| == COLUMN_COUNT && AreFixable(values) && ReadsBelow(plan, width)
    requires forall o <- overrides :: o.index < width
    ensures ReadsBelow(FinalMapping(plan, overrides, values), width)
  {
    hide Reads, WithOverrides, WithFixed;
    forall t: nat, i: nat | t < COLUMN_COUNT && Reads(FinalMapping(plan, overrides, values)[t], i) ensures i < width {
      FixedReadsNothing(WithOverrides(plan, overrides), values, t, i);
      OverridesReadBelow(plan, overrides, width, t, i);
    }
  }

  lemma {:induction false} OverridesReadBelow(plan: seq<ColSrc>, overrides: seq<Override>, width: nat, t: nat, i: nat)
    requires |plan| == COLUMN_COUNT && t < COLUMN_COUNT && ReadsBelow(plan, width)
    requires forall o <- overrides :: o.index < width
    requires Reads(WithOverrides(plan, overrides)[t], i)
    ensures i < width
  {
    hide Reads;
    if overrides != [] {
      var before, last := overrides[..|overrides| - 1], overrides[|overrides| - 1];
      assert last in overrides && forall o <- before :: o in overrides;
      OverrideStep(WithOverrides(plan, before), last, t, i);
      if Reads(WithOverrides(plan, before)[t], i) {
        OverridesReadBelow(plan, before, width, t, i);
      }
    }
  }
}
