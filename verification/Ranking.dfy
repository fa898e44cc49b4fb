/** ORDER BY over rows no two of which tie: the order is forced, whatever sorts them. */
module Ranking {
  import opened Sql

  ghost predicate IsStrictTotal<T(!new)>(s: set<T>, before: (T, T) -> bool) {
    && (forall a <- s :: !before(a, a))
    && (forall a <- s, b <- s :: a == b || before(a, b) || before(b, a))
    && (forall a <- s, b <- s, c <- s :: before(a, b) && before(b, c) ==> before(a, c))
  }

  ghost function Elements<T(!new)>(out: seq<T>): (s: set<T>)
    ensures forall x :: x in s <==> x in out
  {
    set x <- out
  }

  ghost predicate IsOrdering<T(!new)>(s: set<T>, before: (T, T) -> bool, out: seq<T>) {
    Elements(out) == s && forall i, j :: 0 <= i < j < |out| ==> before(out[i], out[j])
  }

  ghost predicate IsFirst<T>(s: set<T>, before: (T, T) -> bool, x: T) {
    x in s && forall y <- s :: y == x || before(x, y)
  }

  lemma {:induction false} SomeIsFirst<T(!new)>(s: set<T>, before: (T, T) -> bool)
    requires s != {} && IsStrictTotal(s, before)
    ensures exists x :: IsFirst(s, before, x)
    decreases |s|
  {
    var y :| y in s;
    if s == {y} {
      assert IsFirst(s, before, y);
    } else {
      var rest := s - {y};
      assert rest != {} by {
        assert s == rest + {y};
      }
      SomeIsFirst(rest, before);
      var x :| IsFirst(rest, before, x);
      assert IsFirst(s, before, if before(x, y) then x else y);
    }
  }

  ghost function Ordered<T(!new)>(s: set<T>, before: (T, T) -> bool): (out: seq<T>)
    requires IsStrictTotal(s, before)
    ensures IsOrdering(s, before, out)
    decreases |s|
  {
    if s == {} then []
    else
      SomeIsFirst(s, before);
      var x :| IsFirst(s, before, x);
      var rest := Ordered(s - {x}, before);
      OrderedStartsWith(s, before, x, rest);
      [x] + rest
  }

  lemma OrderedStartsWith<T(!new)>(s: set<T>, before: (T, T) -> bool, x: T, rest: seq<T>)
    requires IsFirst(s, before, x) && IsOrdering(s - {x}, before, rest)
    ensures IsOrdering(s, before, [x] + rest)
  {
    forall y ensures y in [x] + rest <==> y in s {
      assert y in rest <==> y in Elements(rest);
    }
    forall j | 0 <= j < |rest| ensures before(x, rest[j]) {
      assert rest[j] in Elements(rest);
      assert rest[j] in s - {x};
    }
    assert Elements([x] + rest) == s;
  }

  /** Any two results of the same ORDER BY are the same sequence. */
  lemma {:induction false} OrderingIsForced<T(!new)>(s: set<T>, before: (T, T) -> bool, a: seq<T>, b: seq<T>)
    requires IsStrictTotal(s, before) && IsOrdering(s, before, a) && IsOrdering(s, before, b)
    ensures a == b
  {
    assert a != [] ==> a[0] in Elements(a);
    assert b != [] ==> b[0] in Elements(b);
    if s != {} {
      var y :| y in s;
      assert y in a && y in b;
      assert a[0] in s && b[0] in s;
      assert a[0] == b[0];
      OrderingOfRest(s, before, a);
      OrderingOfRest(s, before, b);
      OrderingIsForced(s - {a[0]}, before, a[1..], b[1..]);
    }
  }

  lemma OrderingOfRest<T(!new)>(s: set<T>, before: (T, T) -> bool, a: seq<T>)
    requires a != [] && IsStrictTotal(s, before) && IsOrdering(s, before, a)
    ensures IsOrdering(s - {a[0]}, before, a[1..])
  {
    assert forall x :: x in a <==> x == a[0] || x in a[1..];
    assert a[0] in s;
    assert forall j :: 1 <= j < |a| ==> before(a[0], a[j]) && a[j] != a[0];
    assert a[0] !in a[1..];
    assert Elements(a[1..]) == s - {a[0]};
  }

  // ---------- the order of labels ----------

  lemma {:induction false} BeforeIsTotal(a: string, b: string)
    ensures !Before(a, a)
    ensures a == b || Before(a, b) || Before(b, a)
  {
    if a != "" {
      BeforeIsTotal(a[1..], if b == "" then "" else b[1..]);
      if b != "" && a[0] == b[0] && a[1..] == b[1..] {
        assert a == [a[0]] + a[1..] && b == [b[0]] + b[1..];
      }
    }
  }

  lemma {:induction false} BeforeIsTransitive(a: string, b: string, c: string)
    requires Before(a, b) && Before(b, c)
    ensures Before(a, c)
  {
    if a != "" && b != "" && c != "" && a[0] == b[0] && b[0] == c[0] {
      BeforeIsTransitive(a[1..], b[1..], c[1..]);
    }
  }
}
