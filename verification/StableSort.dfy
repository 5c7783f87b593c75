/**
 * The stable sort behind `Array.prototype.sort`.  `before(a, b)` is "the comparator is negative".
 */
module StableSort {
  import opened Common

  /** `before` is a strict weak order, as every comparator in this repository is. */
  ghost predicate StrictWeakOrder<T(!new)>(before: (T, T) -> bool) {
    && (forall a, b :: before(a, b) ==> !before(b, a))
    && (forall a, b, c :: !before(b, a) && !before(c, b) ==> !before(c, a))
  }

  /** The order cannot tell the elements of `tied` apart. */
  ghost predicate Tied<T(!new)>(before: (T, T) -> bool, tied: T -> bool) {
    forall a, b :: tied(a) && tied(b) ==> !before(a, b)
  }

  ghost predicate Sorted<T>(before: (T, T) -> bool, xs: seq<T>) {
    forall i, j :: 0 <= i < j < |xs| ==> !before(xs[j], xs[i])
  }

  function Insert<T>(before: (T, T) -> bool, x: T, xs: seq<T>): (ys: seq<T>)
    ensures multiset(ys) == multiset{x} + multiset(xs)
  {
    if xs == [] then [x]
    else if before(xs[0], x) then
      assert xs == [xs[0]] + xs[1..];
      [xs[0]] + Insert(before, x, xs[1..])
    else [x] + xs
  }

  function Sort<T>(before: (T, T) -> bool, xs: seq<T>): (ys: seq<T>)
    ensures multiset(ys) == multiset(xs)
    ensures |ys| == |xs|
  {
    if xs == [] then []
    else
      assert xs == [xs[0]] + xs[1..];
      var ys := Insert(before, xs[0], Sort(before, xs[1..]));
      assert |ys| == |multiset(ys)| == |multiset(xs)| == |xs|;
      ys
  }

  lemma SortMembers<T>(before: (T, T) -> bool, xs: seq<T>)
    ensures forall x :: x in Sort(before, xs) <==> x in xs
  {
    var ys := Sort(before, xs);
    forall x ensures x in ys <==> x in xs {
      assert x in ys <==> x in multiset(ys);
      assert x in xs <==> x in multiset(xs);
    }
  }

  lemma {:induction false} InsertSorted<T(!new)>(before: (T, T) -> bool, x: T, xs: seq<T>)
    requires StrictWeakOrder(before) && Sorted(before, xs)
    ensures Sorted(before, Insert(before, x, xs))
  {
    if xs != [] {
      if before(xs[0], x) {
        InsertSorted(before, x, xs[1..]);
        var rest := Insert(before, x, xs[1..]);
        forall j | 0 <= j < |rest| ensures !before(rest[j], xs[0]) {
          assert rest[j] in multiset(rest);
          assert rest[j] == x || rest[j] in xs[1..];
        }
      } else {
        forall j | 0 <= j < |xs| ensures !before(xs[j], x) {
        }
      }
    }
  }

  lemma {:induction false} SortSorted<T(!new)>(before: (T, T) -> bool, xs: seq<T>)
    requires StrictWeakOrder(before)
    ensures Sorted(before, Sort(before, xs))
  {
    if xs != [] {
      SortSorted(before, xs[1..]);
      InsertSorted(before, xs[0], Sort(before, xs[1..]));
    }
  }

  /** A sequence that is in order already is left alone: the sort is stable. */
  lemma {:induction false} SortIdle<T(!new)>(before: (T, T) -> bool, xs: seq<T>)
    requires Sorted(before, xs)
    ensures Sort(before, xs) == xs
  {
    if xs != [] {
      SortIdle(before, xs[1..]);
      assert xs == [xs[0]] + xs[1..];
      if |xs| > 1 {
        assert !before(xs[1], xs[0]);
      }
    }
  }

  /** Elements the order cannot tell apart keep their relative order. */
  lemma {:induction false} InsertStable<T(!new)>(before: (T, T) -> bool, x: T, xs: seq<T>, tied: T -> bool)
    requires Tied(before, tied)
    ensures Filter(tied, Insert(before, x, xs)) == Filter(tied, [x]) + Filter(tied, xs)
  {
    if xs != [] && before(xs[0], x) {
      InsertStable(before, x, xs[1..], tied);
      var rest := Insert(before, x, xs[1..]);
      assert ([xs[0]] + rest)[1..] == rest;
      assert !(tied(x) && tied(xs[0]));
    } else {
      assert ([x] + xs)[1..] == xs;
      assert [x][1..] == [];
    }
  }

  lemma {:induction false} SortStable<T(!new)>(before: (T, T) -> bool, xs: seq<T>, tied: T -> bool)
    requires Tied(before, tied)
    ensures Filter(tied, Sort(before, xs)) == Filter(tied, xs)
  {
    if xs != [] {
      var ys := Sort(before, xs[1..]);
      SortStable(before, xs[1..], tied);
      InsertStable(before, xs[0], ys, tied);
      calc {
        Filter(tied, Sort(before, xs));
        Filter(tied, [xs[0]]) + Filter(tied, ys);
        Filter(tied, [xs[0]]) + Filter(tied, xs[1..]);
        { FilterAppend(tied, [xs[0]], xs[1..]); assert [xs[0]] + xs[1..] == xs; }
        Filter(tied, xs);
      }
    }
  }

  lemma {:induction false} InsertMap<A(!new), B(!new)>(
    beforeA: (A, A) -> bool, beforeB: (B, B) -> bool, f: A -> B, x: A, xs: seq<A>)
    requires forall y :: y in xs ==> beforeA(y, x) == beforeB(f(y), f(x))
    ensures MapSeq(f, Insert(beforeA, x, xs)) == Insert(beforeB, f(x), MapSeq(f, xs))
  {
    if xs == [] {
      MapCons(f, x, []);
    } else {
      assert xs == [xs[0]] + xs[1..];
      MapCons(f, xs[0], xs[1..]);
      if beforeA(xs[0], x) {
        InsertMap(beforeA, beforeB, f, x, xs[1..]);
        MapCons(f, xs[0], Insert(beforeA, x, xs[1..]));
      } else {
        MapCons(f, x, xs);
      }
    }
  }

  /** `f` neither makes nor breaks an order between elements of `xs`. */
  ghost predicate KeepsOrder<A, B>(beforeA: (A, A) -> bool, beforeB: (B, B) -> bool, f: A -> B, xs: seq<A>) {
    forall x, y :: x in xs && y in xs ==> beforeA(x, y) == beforeB(f(x), f(y))
  }

  /** Sorting commutes with any map that keeps the order between the elements at hand. */
  lemma {:induction false} SortMap<A(!new), B(!new)>(
    beforeA: (A, A) -> bool, beforeB: (B, B) -> bool, f: A -> B, xs: seq<A>)
    requires KeepsOrder(beforeA, beforeB, f, xs)
    ensures MapSeq(f, Sort(beforeA, xs)) == Sort(beforeB, MapSeq(f, xs))
  {
    if xs != [] {
      var x, rest := xs[0], xs[1..];
      assert KeepsOrder(beforeA, beforeB, f, rest);
      SortMap(beforeA, beforeB, f, rest);
      assert xs == [x] + rest;
      MapCons(f, x, rest);
      var sorted := Sort(beforeA, rest);
      forall y | y in sorted ensures beforeA(y, x) == beforeB(f(y), f(x)) {
        SortMembers(beforeA, rest);
        assert y in xs;
      }
      InsertMap(beforeA, beforeB, f, x, sorted);
      assert MapSeq(f, xs)[1..] == MapSeq(f, rest);
    }
  }
}
