/** Lexicographic order, sorted listings of finite sets, and their uniqueness. Byte strings are
    modelled as `string`, one character for one byte. */
module Ordering {

  ghost predicate StrictTotal<T(!new)>(less: (T, T) -> bool) {
    && (forall x :: !less(x, x))
    && (forall x, y, z :: less(x, y) && less(y, z) ==> less(x, z))
    && (forall x, y :: x != y ==> less(x, y) || less(y, x))
  }

  predicate Before<T(==)>(less: (T, T) -> bool, a: seq<T>, b: seq<T>) {
    if |b| == 0 then false
    else if |a| == 0 then true
    else less(a[0], b[0]) || (a[0] == b[0] && Before(less, a[1..], b[1..]))
  }

  predicate CharLess(a: char, b: char) { a < b }

  predicate TextLess(a: string, b: string) { Before(CharLess, a, b) }

  predicate PathLess(a: seq<string>, b: seq<string>) { Before(TextLess, a, b) }

  predicate Sorted<T>(less: (T, T) -> bool, xs: seq<T>) {
    forall i, j :: 0 <= i < j < |xs| ==> less(xs[i], xs[j])
  }

  function Elements<T>(xs: seq<T>): set<T> { set x | x in xs }

  lemma Regroup(a: string, b: string, c: string)
    ensures a + (b + c) == (a + b) + c
  {
  }

  lemma {:induction false} BeforeIrreflexive<T(!new)>(less: (T, T) -> bool, a: seq<T>)
    requires StrictTotal(less)
    ensures !Before(less, a, a)
  {
    if |a| > 0 { BeforeIrreflexive(less, a[1..]); }
  }

  lemma {:induction false} BeforeTransitive<T(!new)>(less: (T, T) -> bool, a: seq<T>, b: seq<T>, c: seq<T>)
    requires StrictTotal(less)
    requires Before(less, a, b) && Before(less, b, c)
    ensures Before(less, a, c)
  {
    if |a| > 0 && a[0] == b[0] && b[0] == c[0] {
      BeforeTransitive(less, a[1..], b[1..], c[1..]);
    }
  }

  lemma {:induction false} BeforeTotal<T(!new)>(less: (T, T) -> bool, a: seq<T>, b: seq<T>)
    requires StrictTotal(less) && a != b
    ensures Before(less, a, b) || Before(less, b, a)
  {
    if |a| > 0 && |b| > 0 && a[0] == b[0] {
      assert a == [a[0]] + a[1..] && b == [b[0]] + b[1..];
      BeforeTotal(less, a[1..], b[1..]);
    }
  }

  lemma BeforeIsTotal<T(!new)>(less: (T, T) -> bool)
    requires StrictTotal(less)
    ensures StrictTotal((a, b) => Before(less, a, b))
  {
    forall a ensures !Before(less, a, a) { BeforeIrreflexive(less, a); }
    forall a, b, c | Before(less, a, b) && Before(less, b, c) ensures Before(less, a, c) {
      BeforeTransitive(less, a, b, c);
    }
    forall a, b | a != b ensures Before(less, a, b) || Before(less, b, a) { BeforeTotal(less, a, b); }
  }

  lemma TextTotal()
    ensures StrictTotal(TextLess)
  {
    BeforeIsTotal(CharLess);
    var order: (string, string) -> bool := (a, b) => Before(CharLess, a, b);
    assert forall a, b :: TextLess(a, b) == order(a, b);
  }

  lemma PathTotal()
    ensures StrictTotal(PathLess)
  {
    TextTotal();
    BeforeIsTotal(TextLess);
    var order: (seq<string>, seq<string>) -> bool := (a, b) => Before(TextLess, a, b);
    assert forall a, b :: PathLess(a, b) == order(a, b);
  }

  lemma NoElements<T>(xs: seq<T>)
    ensures Elements(xs) == {} <==> xs == []
  {
    if |xs| > 0 { assert xs[0] in Elements(xs); }
  }

  /** A strictly sorted sequence is determined by its elements. */
  lemma {:induction false} SortedUnique<T(!new)>(less: (T, T) -> bool, xs: seq<T>, ys: seq<T>)
    requires StrictTotal(less) && Sorted(less, xs) && Sorted(less, ys)
    requires Elements(xs) == Elements(ys)
    ensures xs == ys
  {
    if |xs| == 0 {
      NoElements(ys);
    } else {
      assert xs[0] in Elements(ys);
      assert ys[0] in Elements(xs);
      assert xs[0] == ys[0];
      forall x ensures x in Elements(xs[1..]) <==> x in Elements(ys[1..]) {
        assert x in Elements(xs[1..]) <==> x in Elements(xs) && x != xs[0];
        assert x in Elements(ys[1..]) <==> x in Elements(ys) && x != ys[0];
      }
      SortedUnique(less, xs[1..], ys[1..]);
    }
  }

  function Insert<T>(less: (T, T) -> bool, x: T, xs: seq<T>): (r: seq<T>) {
    if |xs| == 0 || less(x, xs[0]) then [x] + xs else [xs[0]] + Insert(less, x, xs[1..])
  }

  lemma {:induction false} InsertElements<T>(less: (T, T) -> bool, x: T, xs: seq<T>)
    ensures Elements(Insert(less, x, xs)) == Elements(xs) + {x}
  {
    if |xs| > 0 && !less(x, xs[0]) {
      var rest := Insert(less, x, xs[1..]);
      InsertElements(less, x, xs[1..]);
      assert Elements([xs[0]] + rest) == {xs[0]} + Elements(rest);
      assert xs == [xs[0]] + xs[1..];
      assert Elements(xs) == {xs[0]} + Elements(xs[1..]);
    } else {
      assert Elements([x] + xs) == {x} + Elements(xs);
    }
  }

  lemma {:induction false} InsertSorted<T(!new)>(less: (T, T) -> bool, x: T, xs: seq<T>)
    requires StrictTotal(less) && Sorted(less, xs) && x !in xs
    ensures Sorted(less, Insert(less, x, xs))
  {
    if |xs| > 0 && !less(x, xs[0]) {
      InsertSorted(less, x, xs[1..]);
      InsertElements(less, x, xs[1..]);
      var rest := Insert(less, x, xs[1..]);
      forall y | y in rest ensures less(xs[0], y) {
        assert y in Elements(rest);
      }
    }
  }

  /** The library sort: lists a finite set in increasing order. */
  method Sort<T(!new,==)>(less: (T, T) -> bool, elements: set<T>) returns (xs: seq<T>)
    requires StrictTotal(less)
    ensures Sorted(less, xs) && Elements(xs) == elements
  {
    xs := [];
    var rest := elements;
    while rest != {}
      invariant rest <= elements && Sorted(less, xs) && Elements(xs) == elements - rest
      decreases |rest|
    {
      var x :| x in rest;
      assert x !in Elements(xs);
      InsertSorted(less, x, xs);
      InsertElements(less, x, xs);
      xs := Insert(less, x, xs);
      rest := rest - {x};
    }
  }

  /** The one increasing listing of a finite set. */
  ghost function Listing<T(!new)>(less: (T, T) -> bool, elements: set<T>): (xs: seq<T>)
    requires StrictTotal(less)
    ensures Sorted(less, xs) && Elements(xs) == elements
    decreases |elements|
  {
    if elements == {} then []
    else
      var x :| x in elements;
      var rest := Listing(less, elements - {x});
      assert x !in Elements(rest);
      InsertSorted(less, x, rest);
      InsertElements(less, x, rest);
      Insert(less, x, rest)
  }
}
