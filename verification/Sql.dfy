/** The part of SQL the analytics queries use: three-valued conditions, WHERE, the
    aggregates and GROUP BY. A nullable column is an `Option`, a table a sequence. */
module Sql {
  import opened Basics

  // ---------- three-valued logic ----------

  datatype Truth = True | False | Null

  predicate Holds(t: Truth) {
    t == True
  }

  function Known(b: bool): Truth {
    if b then True else False
  }

  function And(a: Truth, b: Truth): Truth {
    if a == False || b == False then False
    else if a == Null || b == Null then Null else True
  }

  function Or(a: Truth, b: Truth): Truth {
    if a == True || b == True then True
    else if a == Null || b == Null then Null else False
  }

  function Not(a: Truth): Truth {
    match a
    case True => False
    case False => True
    case Null => Null
  }

  /** SQL's connectives are Kleene's: dual under NOT, which is its own inverse, and unknown
      exactly when an operand is unknown and the other does not decide. */
  lemma Kleene(a: Truth, b: Truth)
    ensures Not(Not(a)) == a && Not(And(a, b)) == Or(Not(a), Not(b)) && Not(Null) == Null && Not(True) == False
    ensures Holds(And(a, b)) <==> Holds(a) && Holds(b)
    ensures Holds(Or(a, b)) <==> Holds(a) || Holds(b)
    ensures And(a, b) == Null <==> a != False && b != False && (a == Null || b == Null)
  {
  }

  function IsNull<T>(x: Option<T>): Truth {
    Known(x.None?)
  }

  function IsNotNull<T>(x: Option<T>): Truth {
    Known(x.Some?)
  }

  function Coalesce<T>(x: Option<T>, otherwise: T): T {
    if x.Some? then x.value else otherwise
  }

  function NullIfBlank(x: Option<string>): Option<string> {
    if x == Some("") then None else x
  }

  function StartsWith(x: Option<string>, prefix: string): Truth {
    match x
    case None => Null
    case Some(s) => Known(prefix <= s)
  }

  function Positive(x: Option<real>): Truth {
    match x
    case None => Null
    case Some(v) => Known(v > 0.0)
  }

  function NotPositive(x: Option<real>): Truth {
    match x
    case None => Null
    case Some(v) => Known(v <= 0.0)
  }

  // ---------- WHERE and aggregates ----------

  function Where<T>(rows: seq<T>, p: T -> bool): seq<T> {
    if rows == [] then []
    else (if p(rows[0]) then [rows[0]] else []) + Where(rows[1..], p)
  }

  function NonNull<T, V>(rows: seq<T>, column: T -> Option<V>): seq<T> {
    Where(rows, row => column(row).Some?)
  }

  function Mapped<T, U>(rows: seq<T>, f: T -> U): seq<U> {
    if rows == [] then [] else [f(rows[0])] + Mapped(rows[1..], f)
  }

  /** `COUNT(column)`. */
  function CountOf<T, V>(rows: seq<T>, column: T -> Option<V>): nat {
    if rows == [] then 0
    else (if column(rows[0]).Some? then 1 else 0) + CountOf(rows[1..], column)
  }

  /** `COALESCE(SUM(column), 0.0)`. */
  function Total<T>(rows: seq<T>, column: T -> Option<real>): real {
    if rows == [] then 0.0
    else Coalesce(column(rows[0]), 0.0) + Total(rows[1..], column)
  }

  /** `SUM(column)`: NULL when every value is. */
  function Sum<T>(rows: seq<T>, column: T -> Option<real>): Option<real> {
    if CountOf(rows, column) == 0 then None else Some(Total(rows, column))
  }

  /** The values `COUNT(DISTINCT column)` counts. */
  ghost function Values<T, V>(rows: seq<T>, column: T -> Option<V>): set<V> {
    set row <- rows | column(row).Some? :: column(row).value
  }

  /** `COUNT(DISTINCT NULLIF(column, ''))`. */
  ghost function Distinct<T>(rows: seq<T>, column: T -> Option<string>): nat {
    |Values(rows, row => NullIfBlank(column(row)))|
  }

  ghost function GroupKeys<T, K>(rows: seq<T>, key: T -> K): set<K> {
    set row <- rows :: key(row)
  }

  // ---------- laws ----------

  lemma {:induction false} WhereConcat<T>(a: seq<T>, b: seq<T>, p: T -> bool)
    ensures Where(a + b, p) == Where(a, p) + Where(b, p)
  {
    if a == [] {
      assert a + b == b;
    } else {
      var row, rest := a[0], a[1..];
      assert a == [row] + rest;
      Associative([row], rest, b);
      WherePrepend(row, rest, p);
      WherePrepend(row, rest + b, p);
      hide Where;
      WhereConcat(rest, b, p);
      Associative(if p(row) then [row] else [], Where(rest, p), Where(b, p));
    }
  }

  lemma {:induction false} WhereCongruent<T>(rows: seq<T>, p: T -> bool, q: T -> bool)
    requires forall row <- rows :: p(row) == q(row)
    ensures Where(rows, p) == Where(rows, q)
  {
    if rows != [] {
      assert rows[0] in rows && forall row <- rows[1..] :: row in rows;
      WhereCongruent(rows[1..], p, q);
    }
  }

  lemma {:induction false} WhereNone<T>(rows: seq<T>, p: T -> bool)
    requires forall row <- rows :: !p(row)
    ensures Where(rows, p) == []
  {
    if rows != [] {
      assert rows[0] in rows && forall row <- rows[1..] :: row in rows;
      WhereNone(rows[1..], p);
    }
  }

  lemma {:induction false} WhereAll<T>(rows: seq<T>, p: T -> bool)
    requires forall row <- rows :: p(row)
    ensures Where(rows, p) == rows
  {
    if rows != [] {
      assert rows[0] in rows && forall row <- rows[1..] :: row in rows;
      WhereAll(rows[1..], p);
    }
  }

  lemma {:induction false} WhereMembers<T>(rows: seq<T>, p: T -> bool, row: T)
    ensures row in Where(rows, p) <==> row in rows && p(row)
  {
    if rows != [] {
      WhereMembers(rows[1..], p, row);
      assert row in rows <==> row == rows[0] || row in rows[1..];
    }
  }

  lemma {:induction false} WhereTwice<T>(rows: seq<T>, p: T -> bool, q: T -> bool)
    ensures Where(Where(rows, p), q) == Where(rows, row => p(row) && q(row))
  {
    if rows != [] {
      var head := if p(rows[0]) then [rows[0]] else [];
      WhereConcat(head, Where(rows[1..], p), q);
      WhereTwice(rows[1..], p, q);
      assert [rows[0]][1..] == [];
    }
  }

  lemma WhereBoth<T>(rows: seq<T>, p: T -> bool, q: T -> bool, both: T -> bool)
    requires forall row <- rows :: both(row) == (p(row) && q(row))
    ensures Where(Where(rows, p), q) == Where(rows, both)
  {
    WhereTwice(rows, p, q);
    WhereCongruent(rows, row => p(row) && q(row), both);
  }

  lemma {:induction false} WhereOfMapped<T, U>(rows: seq<T>, f: T -> U, q: U -> bool, p: T -> bool)
    requires forall row <- rows :: p(row) == q(f(row))
    ensures Where(Mapped(rows, f), q) == Mapped(Where(rows, p), f)
  {
    if rows != [] {
      assert rows[0] in rows && forall row <- rows[1..] :: row in rows;
      assert Mapped(rows, f)[1..] == Mapped(rows[1..], f);
      WhereOfMapped(rows[1..], f, q, p);
      var rest := Where(rows[1..], p);
      if p(rows[0]) {
        assert ([rows[0]] + rest)[1..] == rest;
      } else {
        assert [] + rest == rest;
      }
    }
  }

  lemma {:induction false} MappedConcat<T, U>(a: seq<T>, b: seq<T>, f: T -> U)
    ensures Mapped(a + b, f) == Mapped(a, f) + Mapped(b, f)
  {
    if a == [] {
      assert a + b == b;
    } else {
      assert (a + b)[0] == a[0] && (a + b)[1..] == a[1..] + b;
      MappedConcat(a[1..], b, f);
    }
  }

  lemma {:induction false} MappedMembers<T, U>(rows: seq<T>, f: T -> U)
    ensures forall y :: y in Mapped(rows, f) <==> exists x :: x in rows && f(x) == y
  {
    if rows != [] {
      MappedMembers(rows[1..], f);
      assert forall x :: x in rows <==> x == rows[0] || x in rows[1..];
    }
  }

  lemma {:induction false} MappedFrom<T, U>(rows: seq<T>, f: T -> U, y: U) returns (x: T)
    requires y in Mapped(rows, f)
    ensures x in rows && f(x) == y
  {
    if f(rows[0]) == y {
      x := rows[0];
    } else {
      x := MappedFrom(rows[1..], f, y);
    }
  }

  lemma {:induction false} TotalConcat<T>(a: seq<T>, b: seq<T>, column: T -> Option<real>)
    ensures Total(a + b, column) == Total(a, column) + Total(b, column)
  {
    if a == [] {
      assert a + b == b;
    } else {
      assert (a + b)[0] == a[0] && (a + b)[1..] == a[1..] + b;
      TotalConcat(a[1..], b, column);
    }
  }

  lemma {:induction false} CountConcat<T, V>(a: seq<T>, b: seq<T>, column: T -> Option<V>)
    ensures CountOf(a + b, column) == CountOf(a, column) + CountOf(b, column)
  {
    if a == [] {
      assert a + b == b;
    } else {
      assert (a + b)[0] == a[0] && (a + b)[1..] == a[1..] + b;
      CountConcat(a[1..], b, column);
    }
  }

  /** Splitting rows in two splits their aggregates. */
  lemma {:induction false} Split<T, V>(rows: seq<T>, p: T -> bool, sum: T -> Option<real>, count: T -> Option<V>)
    ensures Total(rows, sum) == Total(Where(rows, p), sum) + Total(Where(rows, row => !p(row)), sum)
    ensures CountOf(rows, count) == CountOf(Where(rows, p), count) + CountOf(Where(rows, row => !p(row)), count)
    ensures |rows| == |Where(rows, p)| + |Where(rows, row => !p(row))|
  {
    if rows != [] {
      var not := row => !p(row);
      var yes, no := Where(rows[1..], p), Where(rows[1..], not);
      Split(rows[1..], p, sum, count);
      Prepend(rows[0], yes, sum, count);
      Prepend(rows[0], no, sum, count);
      assert [] + yes == yes && [] + no == no;
      assert Where(rows, not) == (if not(rows[0]) then [rows[0]] else []) + no;
    }
  }

  lemma Prepend<T, V>(row: T, rows: seq<T>, sum: T -> Option<real>, count: T -> Option<V>)
    ensures Total([row] + rows, sum) == Coalesce(sum(row), 0.0) + Total(rows, sum)
    ensures CountOf([row] + rows, count) == (if count(row).Some? then 1 else 0) + CountOf(rows, count)
  {
    assert ([row] + rows)[1..] == rows;
  }

  /** The texts of a column that are neither NULL nor blank. */
  ghost function Texts<T>(rows: seq<T>, column: T -> Option<string>): set<string> {
    set row <- rows | column(row).Some? && column(row).value != "" :: column(row).value
  }

  lemma DistinctIs<T>(rows: seq<T>, column: T -> Option<string>)
    ensures Distinct(rows, column) == |Texts(rows, column)|
  {
    var keys := row => NullIfBlank(column(row));
    assert Distinct(rows, column) == |Values(rows, keys)|;
    forall text ensures text in Values(rows, keys) <==> text in Texts(rows, column) {
      if text in Texts(rows, column) {
        var row :| row in rows && column(row) == Some(text) && text != "";
        assert keys(row) == Some(text);
      }
    }
    assert Values(rows, keys) == Texts(rows, column);
  }

  /** A column that is zeroed or NULL outside some rows is a column of those rows. */
  lemma {:induction false} TotalOfSome<T>(rows: seq<T>, p: T -> bool, within: T -> Option<real>,
                                          column: T -> Option<real>)
    requires forall row <- rows :: Coalesce(within(row), 0.0) == if p(row) then Coalesce(column(row), 0.0) else 0.0
    ensures Total(rows, within) == Total(Where(rows, p), column)
  {
    if rows != [] {
      assert rows[0] in rows && forall row <- rows[1..] :: row in rows;
      TotalOfSome(rows[1..], p, within, column);
      Prepend(rows[0], Where(rows[1..], p), column, column);
      assert [] + Where(rows[1..], p) == Where(rows[1..], p);
    }
  }

  lemma {:induction false} CountOfSome<T, V>(rows: seq<T>, p: T -> bool, within: T -> Option<V>)
    requires forall row <- rows :: within(row).Some? <==> p(row)
    ensures CountOf(rows, within) == |Where(rows, p)|
  {
    if rows != [] {
      assert rows[0] in rows && forall row <- rows[1..] :: row in rows;
      CountOfSome(rows[1..], p, within);
    }
  }

  // ---------- sums over groups ----------

  ghost function SumOver<K>(keys: set<K>, f: K -> real): real {
    if keys == {} then 0.0
    else
      var k :| k in keys;
      f(k) + SumOver(keys - {k}, f)
  }

  ghost function CountOver<K>(keys: set<K>, f: K -> nat): nat {
    if keys == {} then 0
    else
      var k :| k in keys;
      f(k) + CountOver(keys - {k}, f)
  }

  lemma {:induction false} SumOverRemove<K>(keys: set<K>, f: K -> real, k: K)
    requires k in keys
    ensures SumOver(keys, f) == f(k) + SumOver(keys - {k}, f)
    decreases |keys|
  {
    var x :| x in keys && SumOver(keys, f) == f(x) + SumOver(keys - {x}, f);
    if x != k {
      SumOverRemove(keys - {x}, f, k);
      SumOverRemove(keys - {k}, f, x);
      assert keys - {x} - {k} == keys - {k} - {x};
    }
  }

  lemma {:induction false} CountOverRemove<K>(keys: set<K>, f: K -> nat, k: K)
    requires k in keys
    ensures CountOver(keys, f) == f(k) + CountOver(keys - {k}, f)
    decreases |keys|
  {
    var x :| x in keys && CountOver(keys, f) == f(x) + CountOver(keys - {x}, f);
    if x != k {
      CountOverRemove(keys - {x}, f, k);
      CountOverRemove(keys - {k}, f, x);
      assert keys - {x} - {k} == keys - {k} - {x};
    }
  }

  ghost function Group<T, K>(rows: seq<T>, key: T -> K, k: K): seq<T> {
    Where(rows, row => key(row) == k)
  }

  ghost function GroupsIn<T, K>(rows: seq<T>, key: T -> K, keys: set<K>): seq<T> {
    Where(rows, row => key(row) in keys)
  }

  lemma GroupsSplit<T, K>(rows: seq<T>, key: T -> K, keys: set<K>, k: K, sum: T -> Option<real>)
    requires k in keys
    ensures Total(GroupsIn(rows, key, keys), sum) ==
      Total(Group(rows, key, k), sum) + Total(GroupsIn(rows, key, keys - {k}), sum)
    ensures |GroupsIn(rows, key, keys)| == |Group(rows, key, k)| + |GroupsIn(rows, key, keys - {k})|
  {
    var all, here := (row: T) => key(row) in keys, (row: T) => key(row) == k;
    Split(Where(rows, all), here, sum, sum);
    WhereTwice(rows, all, here);
    WhereTwice(rows, all, row => !here(row));
    WhereCongruent(rows, row => all(row) && here(row), here);
    WhereCongruent(rows, row => all(row) && (row => !here(row))(row), row => key(row) in keys - {k});
  }

  /** What the groups hold adds up to what the rows in those groups hold. */
  lemma {:induction false} GroupsConserve<T, K>(rows: seq<T>, key: T -> K, keys: set<K>, sum: T -> Option<real>)
    ensures SumOver(keys, k => Total(Group(rows, key, k), sum)) == Total(GroupsIn(rows, key, keys), sum)
    ensures CountOver(keys, k => |Group(rows, key, k)|) == |GroupsIn(rows, key, keys)|
    decreases |keys|
  {
    if keys == {} {
      WhereNone(rows, row => key(row) in keys);
    } else {
      var k :| k in keys;
      GroupsSplit(rows, key, keys, k, sum);
      GroupsConserve(rows, key, keys - {k}, sum);
      SumOverRemove(keys, k => Total(Group(rows, key, k), sum), k);
      CountOverRemove(keys, k => |Group(rows, key, k)|, k);
    }
  }

  lemma AllGroups<T, K>(rows: seq<T>, key: T -> K, keys: set<K>)
    requires GroupKeys(rows, key) <= keys
    ensures GroupsIn(rows, key, keys) == rows
  {
    forall row | row in rows ensures key(row) in keys {
      assert key(row) in GroupKeys(rows, key);
    }
    WhereAll(rows, row => key(row) in keys);
  }

  lemma GroupIsWhere<T, K>(rows: seq<T>, p: T -> bool, key: T -> K, k: K, q: T -> bool)
    requires forall row <- rows :: q(row) == (p(row) && key(row) == k)
    ensures Group(Where(rows, p), key, k) == Where(rows, q)
  {
    WhereBoth(rows, p, row => key(row) == k, q);
  }

  lemma GroupIs<T, K>(rows: seq<T>, key: T -> K, k: K, p: T -> bool)
    requires forall row <- rows :: p(row) == (key(row) == k)
    ensures Group(rows, key, k) == Where(rows, p)
  {
    WhereCongruent(rows, row => key(row) == k, p);
  }

  lemma GroupOfAll<T, K>(rows: seq<T>, key: T -> K, k: K)
    requires forall row <- rows :: key(row) == k
    ensures Group(rows, key, k) == rows
  {
    WhereAll(rows, row => key(row) == k);
  }

  lemma NoGroups<T, K>(rows: seq<T>, key: T -> K)
    ensures GroupsIn(rows, key, {}) == []
  {
    var none: set<K> := {};
    WhereNone(rows, row => key(row) in none);
  }

  lemma GroupMembers<T, K>(rows: seq<T>, key: T -> K, k: K, row: T)
    ensures row in Group(rows, key, k) <==> row in rows && key(row) == k
  {
    WhereMembers(rows, row => key(row) == k, row);
  }

  /** A group of a finer key lies wholly inside or wholly outside a group of a coarser one. */
  lemma GroupOfGroup<T, K, L>(rows: seq<T>, coarse: T -> K, fine: T -> L, c: K, k: L)
    ensures (forall row <- rows :: fine(row) == k ==> coarse(row) == c) ==>
      Group(Group(rows, coarse, c), fine, k) == Group(rows, fine, k)
    ensures (forall row <- rows :: fine(row) == k ==> coarse(row) != c) ==>
      Group(Group(rows, coarse, c), fine, k) == []
  {
    var outer, inner := (row: T) => coarse(row) == c, (row: T) => fine(row) == k;
    WhereTwice(rows, outer, inner);
    if forall row <- rows :: fine(row) == k ==> coarse(row) == c {
      WhereCongruent(rows, row => outer(row) && inner(row), inner);
    }
    if forall row <- rows :: fine(row) == k ==> coarse(row) != c {
      WhereNone(rows, row => outer(row) && inner(row));
    }
  }

  lemma {:induction false} SumOverCongruent<K>(keys: set<K>, f: K -> real, g: K -> real)
    requires forall k <- keys :: f(k) == g(k)
    ensures SumOver(keys, f) == SumOver(keys, g)
    decreases |keys|
  {
    if keys != {} {
      var k :| k in keys;
      SumOverCongruent(keys - {k}, f, g);
      SumOverRemove(keys, f, k);
      SumOverRemove(keys, g, k);
    }
  }

  lemma {:induction false} CountOverCongruent<K>(keys: set<K>, f: K -> nat, g: K -> nat)
    requires forall k <- keys :: f(k) == g(k)
    ensures CountOver(keys, f) == CountOver(keys, g)
    decreases |keys|
  {
    if keys != {} {
      var k :| k in keys;
      CountOverCongruent(keys - {k}, f, g);
      CountOverRemove(keys, f, k);
      CountOverRemove(keys, g, k);
    }
  }

  /** Rows that are certain to be NULL add nothing. */
  lemma {:induction false} TotalSkipsRows<T, V>(rows: seq<T>, certain: T -> Option<V>, column: T -> Option<real>)
    requires forall row <- rows :: certain(row).None? ==> column(row).None?
    ensures Total(NonNull(rows, certain), column) == Total(rows, column)
  {
    if rows != [] {
      var rest := NonNull(rows[1..], certain);
      assert rows[0] in rows && forall row <- rows[1..] :: row in rows;
      TotalSkipsRows(rows[1..], certain, column);
      Prepend(rows[0], rest, column, column);
      assert NonNull(rows, certain) == (if certain(rows[0]).Some? then [rows[0]] else []) + rest;
      assert [] + rest == rest;
    }
  }

  lemma {:induction false} TotalCongruent<T>(rows: seq<T>, f: T -> Option<real>, g: T -> Option<real>)
    requires forall row <- rows :: f(row) == g(row)
    ensures Total(rows, f) == Total(rows, g)
  {
    if rows != [] {
      assert rows[0] in rows && forall row <- rows[1..] :: row in rows;
      TotalCongruent(rows[1..], f, g);
    }
  }

  /** `COALESCE(SUM(column), 0.0)` is the plain total. */
  lemma {:induction false} SumOrZero<T>(rows: seq<T>, column: T -> Option<real>)
    ensures Coalesce(Sum(rows, column), 0.0) == Total(rows, column)
  {
    if rows != [] {
      SumOrZero(rows[1..], column);
    }
  }

  /** A stronger condition selects fewer rows, and as many only when it is no stronger here. */
  lemma {:induction false} CountsCompare<T>(rows: seq<T>, p: T -> bool, q: T -> bool)
    requires forall row <- rows :: p(row) ==> q(row)
    ensures |Where(rows, p)| <= |Where(rows, q)|
    ensures |Where(rows, p)| == |Where(rows, q)| <==> forall row <- rows :: q(row) ==> p(row)
  {
    if rows != [] {
      assert forall row :: row in rows <==> row == rows[0] || row in rows[1..];
      CountsCompare(rows[1..], p, q);
    }
  }

  lemma {:induction false} CountsSplit<T>(rows: seq<T>, p: T -> bool, a: T -> bool, b: T -> bool)
    requires forall row <- rows :: p(row) == (a(row) || b(row)) && !(a(row) && b(row))
    ensures |Where(rows, p)| == |Where(rows, a)| + |Where(rows, b)|
  {
    if rows != [] {
      assert rows[0] in rows && forall row <- rows[1..] :: row in rows;
      CountsSplit(rows[1..], p, a, b);
    }
  }

  lemma {:induction false} CountsPartition<T, V>(rows: seq<T>, column: T -> Option<V>, a: T -> bool, b: T -> bool,
                                                   c: T -> bool)
    requires forall row <- rows :: column(row).Some? == (a(row) || b(row) || c(row))
    requires forall row <- rows :: !(a(row) && b(row)) && !(a(row) && c(row)) && !(b(row) && c(row))
    ensures |NonNull(rows, column)| == |Where(rows, a)| + |Where(rows, b)| + |Where(rows, c)|
  {
    if rows != [] {
      assert rows[0] in rows && forall row <- rows[1..] :: row in rows;
      CountsPartition(rows[1..], column, a, b, c);
    }
  }

  lemma NonNullMembers<T, V>(rows: seq<T>, column: T -> Option<V>, row: T)
    ensures row in NonNull(rows, column) <==> row in rows && column(row).Some?
  {
    WhereMembers(rows, row => column(row).Some?, row);
  }

  /** The rows of some groups of the non-null rows, counted by a single condition. */
  lemma GroupedRows<T, V, K>(rows: seq<T>, column: T -> Option<V>, key: T -> K, keys: set<K>, p: T -> bool)
    requires forall r <- rows :: column(r).Some? && key(r) in keys <==> p(r)
    ensures CountOver(keys, k => |Group(NonNull(rows, column), key, k)|) == |Where(rows, p)|
  {
    var here, wanted := (row: T) => column(row).Some?, (row: T) => key(row) in keys;
    GroupsConserve(NonNull(rows, column), key, keys, row => None);
    WhereTwice(rows, here, wanted);
    WhereCongruent(rows, row => here(row) && wanted(row), p);
  }

  lemma {:induction false} CountIsLength<T, V>(rows: seq<T>, column: T -> Option<V>)
    ensures CountOf(rows, column) == |NonNull(rows, column)|
  {
    if rows != [] {
      CountIsLength(rows[1..], column);
    }
  }

  // ---------- the order of strings ----------

  predicate Before(a: string, b: string) {
    b != "" && (a == "" || a[0] < b[0] || (a[0] == b[0] && Before(a[1..], b[1..])))
  }

  /** `MIN(column)` of a set of values. */
  ghost predicate IsLeast(s: string, values: set<string>) {
    s in values && forall v <- values :: v == s || Before(s, v)
  }

  lemma {:induction false} MappedCongruent<T, U>(rows: seq<T>, f: T -> U, g: T -> U)
    requires forall row <- rows :: f(row) == g(row)
    ensures Mapped(rows, f) == Mapped(rows, g)
  {
    if rows != [] {
      assert rows[0] in rows && forall row <- rows[1..] :: row in rows;
      MappedCongruent(rows[1..], f, g);
    }
  }

  /** Aggregates see only the column, not what else the rows carry. */
  lemma {:induction false} SameColumn<T, U, V>(rows: seq<T>, f: T -> U, column: T -> Option<V>, column': U -> Option<V>)
    requires forall row <- rows :: column'(f(row)) == column(row)
    ensures CountOf(Mapped(rows, f), column') == CountOf(rows, column)
    ensures Values(Mapped(rows, f), column') == Values(rows, column)
    ensures |Mapped(rows, f)| == |rows|
  {
    if rows != [] {
      assert Mapped(rows, f)[1..] == Mapped(rows[1..], f);
      assert forall row :: row in rows <==> row == rows[0] || row in rows[1..];
      SameColumn(rows[1..], f, column, column');
      ValuesPrepend(rows, column);
      ValuesPrepend(Mapped(rows, f), column');
    }
  }

  lemma ValuesPrepend<T, V>(rows: seq<T>, column: T -> Option<V>)
    requires rows != []
    ensures Values(rows, column) ==
      (if column(rows[0]).Some? then {column(rows[0]).value} else {}) + Values(rows[1..], column)
  {
    assert forall row :: row in rows <==> row == rows[0] || row in rows[1..];
  }

  lemma {:induction false} SameTotal<T, U>(rows: seq<T>, f: T -> U, column: T -> Option<real>,
                                             column': U -> Option<real>)
    requires forall row <- rows :: column'(f(row)) == column(row)
    ensures Total(Mapped(rows, f), column') == Total(rows, column)
  {
    if rows != [] {
      assert Mapped(rows, f)[1..] == Mapped(rows[1..], f);
      assert rows[0] in rows && forall row <- rows[1..] :: row in rows;
      SameTotal(rows[1..], f, column, column');
    }
  }

  lemma WherePrepend<T>(row: T, rows: seq<T>, p: T -> bool)
    ensures Where([row] + rows, p) == (if p(row) then [row] else []) + Where(rows, p)
  {
    assert ([row] + rows)[1..] == rows;
  }

  lemma MappedPrepend<T, U>(row: T, rows: seq<T>, f: T -> U)
    ensures Mapped([row] + rows, f) == [f(row)] + Mapped(rows, f)
  {
    assert ([row] + rows)[1..] == rows;
  }

  /** A branch of a union that tags rows, keeps some, places them in a view and is then
      filtered: going back to the rows, it is one filter. */
  lemma {:induction false} BranchOfUnion<T, U, V>(rows: seq<T>, tag: T -> U, keep: U -> bool, place: U -> V,
                                                  p: V -> bool, back: V -> T, q: T -> bool)
    requires forall row <- rows :: back(place(tag(row))) == row && q(row) == (keep(tag(row)) && p(place(tag(row))))
    ensures Mapped(Where(Mapped(Where(Mapped(rows, tag), keep), place), p), back) == Where(rows, q)
  {
    if rows != [] {
      hide Where, Mapped;
      var row, rest := rows[0], rows[1..];
      assert rows == [row] + rest && row in rows && forall r <- rest :: r in rows;
      BranchOfUnion(rest, tag, keep, place, p, back, q);
      var kept := Where(Mapped(rest, tag), keep);
      var placed := Mapped(kept, place);
      MappedPrepend(row, rest, tag);
      WherePrepend(tag(row), Mapped(rest, tag), keep);
      MappedPrepend(tag(row), kept, place);
      WherePrepend(place(tag(row)), placed, p);
      MappedPrepend(place(tag(row)), Where(placed, p), back);
      WherePrepend(row, rest, q);
      assert [] + kept == kept && [] + Where(placed, p) == Where(placed, p) && [] + Where(rest, q) == Where(rest, q);
    }
  }

  lemma SameDistinct<T, U>(rows: seq<T>, f: T -> U, column: T -> Option<string>, column': U -> Option<string>)
    requires forall row <- rows :: column'(f(row)) == column(row)
    ensures Distinct(Mapped(rows, f), column') == Distinct(rows, column)
  {
    SameColumn(rows, f, row => NullIfBlank(column(row)), row => NullIfBlank(column'(row)));
  }

  lemma GroupsSplitCount<T, V, K>(rows: seq<T>, key: T -> K, keys: set<K>, k: K, count: T -> Option<V>)
    requires k in keys
    ensures CountOf(GroupsIn(rows, key, keys), count) ==
      CountOf(Group(rows, key, k), count) + CountOf(GroupsIn(rows, key, keys - {k}), count)
  {
    var all, here := (row: T) => key(row) in keys, (row: T) => key(row) == k;
    Split(Where(rows, all), here, row => None, count);
    WhereBoth(rows, all, here, here);
    WhereBoth(rows, all, row => !here(row), row => key(row) in keys - {k});
  }

  lemma {:induction false} GroupsConserveCount<T, V, K>(rows: seq<T>, key: T -> K, keys: set<K>, count: T -> Option<V>)
    ensures CountOver(keys, k => CountOf(Group(rows, key, k), count)) == CountOf(GroupsIn(rows, key, keys), count)
    decreases |keys|
  {
    if keys == {} {
      NoGroups(rows, key);
    } else {
      var k :| k in keys;
      GroupsSplitCount(rows, key, keys, k, count);
      GroupsConserveCount(rows, key, keys - {k}, count);
      CountOverRemove(keys, k => CountOf(Group(rows, key, k), count), k);
    }
  }
}
