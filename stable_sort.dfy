/**
 * A stable comparison sort, the behaviour of JavaScript's `Array.prototype.sort(compare)` for a
 * consistent comparator: `lt(a, b)` holds when `compare(a, b) < 0`, that is, when `a` must come first.
 */
module StableSort {

  /** `lt` is a strict weak order: asymmetric, and if `a` precedes `c` then any `b` is after `a` or before `c`. */
  ghost predicate StrictWeakOrder<T(!new)>(lt: (T, T) -> bool)
  {
    && (forall a, b :: lt(a, b) ==> !lt(b, a))
    && (forall a, b, c :: lt(a, c) ==> lt(a, b) || lt(b, c))
  }

  /** No element is strictly before its left neighbour. */
  ghost predicate Sorted<T>(s: seq<T>, lt: (T, T) -> bool)
  {
    forall i :: 0 < i < |s| ==> !lt(s[i], s[i - 1])
  }

  /** Neither of `a`, `b` must come before the other: the comparator returns 0. */
  predicate Equivalent<T>(a: T, b: T, lt: (T, T) -> bool)
  {
    !lt(a, b) && !lt(b, a)
  }

  /** The elements of `s` equivalent to `x`, in their order in `s`. */
  function EquivalentTo<T>(s: seq<T>, x: T, lt: (T, T) -> bool): seq<T>
  {
    if s == [] then []
    else (if Equivalent(x, s[0], lt) then [s[0]] else []) + EquivalentTo(s[1..], x, lt)
  }

  /** Inserts `x` in front of the first element that does not strictly precede it. */
  function Insert<T>(x: T, s: seq<T>, lt: (T, T) -> bool): (r: seq<T>)
    ensures |r| == |s| + 1
    ensures multiset(r) == multiset(s) + multiset{x}
    ensures r[0] == x || (s != [] && r[0] == s[0])
  {
    if s == [] || !lt(s[0], x) then [x] + s
    else
      assert s == [s[0]] + s[1..];
      [s[0]] + Insert(x, s[1..], lt)
  }

  /** Insertion sort from the back: each element goes in front of the ones it ties with. */
  function SortBy<T>(s: seq<T>, lt: (T, T) -> bool): (r: seq<T>)
    ensures |r| == |s|
    ensures multiset(r) == multiset(s)
  {
    if s == [] then []
    else
      assert s == [s[0]] + s[1..];
      Insert(s[0], SortBy(s[1..], lt), lt)
  }

  lemma {:induction false} InsertSorted<T>(x: T, s: seq<T>, lt: (T, T) -> bool)
    requires forall a, b :: lt(a, b) ==> !lt(b, a)
    requires Sorted(s, lt)
    ensures Sorted(Insert(x, s, lt), lt)
  {
    if s != [] && lt(s[0], x) {
      InsertSorted(x, s[1..], lt);
    }
  }

  /** For an asymmetric `lt`, the result is sorted. */
  lemma {:induction false} SortBySorted<T>(s: seq<T>, lt: (T, T) -> bool)
    requires forall a, b :: lt(a, b) ==> !lt(b, a)
    ensures Sorted(SortBy(s, lt), lt)
  {
    if s != [] {
      SortBySorted(s[1..], lt);
      InsertSorted(s[0], SortBy(s[1..], lt), lt);
    }
  }

  lemma {:induction false} EquivalentToAppend<T>(a: seq<T>, b: seq<T>, x: T, lt: (T, T) -> bool)
    ensures EquivalentTo(a + b, x, lt) == EquivalentTo(a, x, lt) + EquivalentTo(b, x, lt)
  {
    if a != [] {
      EquivalentToAppend(a[1..], b, x, lt);
      assert (a + b)[1..] == a[1..] + b;
    } else {
      assert a + b == b;
    }
  }

  /** Inserting `y` adds it to the class of `x` at the front if it belongs there, and changes nothing else. */
  lemma {:induction false} InsertEquivalentTo<T(!new)>(y: T, s: seq<T>, x: T, lt: (T, T) -> bool)
    requires StrictWeakOrder(lt)
    ensures EquivalentTo(Insert(y, s, lt), x, lt)
         == (if Equivalent(x, y, lt) then [y] else []) + EquivalentTo(s, x, lt)
  {
    var mine := if Equivalent(x, y, lt) then [y] else [];
    if s == [] || !lt(s[0], y) {
      var r := [y] + s;
      assert r[0] == y && r[1..] == s;
    } else {
      var rest := Insert(y, s[1..], lt);
      InsertEquivalentTo(y, s[1..], x, lt);
      var r := [s[0]] + rest;
      assert r[0] == s[0] && r[1..] == rest;
      var head := if Equivalent(x, s[0], lt) then [s[0]] else [];
      assert EquivalentTo(s, x, lt) == head + EquivalentTo(s[1..], x, lt);
      if Equivalent(x, y, lt) {
        // s[0] strictly precedes y, which is equivalent to x, so s[0] is not equivalent to x
        assert lt(s[0], y) ==> lt(s[0], x) || lt(x, y);
        assert head == [];
      } else {
        assert mine == [];
      }
    }
  }

  /** Stability: the elements equivalent to any `x` keep their relative input order. */
  lemma {:induction false} SortByStable<T(!new)>(s: seq<T>, x: T, lt: (T, T) -> bool)
    requires StrictWeakOrder(lt)
    ensures EquivalentTo(SortBy(s, lt), x, lt) == EquivalentTo(s, x, lt)
  {
    if s != [] {
      SortByStable(s[1..], x, lt);
      InsertEquivalentTo(s[0], SortBy(s[1..], lt), x, lt);
    }
  }

  lemma {:induction false} SortedUpTo<T(!new)>(s: seq<T>, lt: (T, T) -> bool, i: nat, j: nat)
    requires StrictWeakOrder(lt)
    requires Sorted(s, lt)
    requires i < j < |s|
    ensures !lt(s[j], s[i])
  {
    if i + 1 < j {
      SortedUpTo(s, lt, i, j - 1);
      var first, middle, last := s[i], s[j - 1], s[j];
      assert lt(last, first) ==> lt(last, middle) || lt(middle, first);
    }
  }

  /** For a strict weak order, a sequence sorted between neighbours is sorted between any two positions. */
  lemma SortedEverywhere<T(!new)>(s: seq<T>, lt: (T, T) -> bool)
    requires StrictWeakOrder(lt)
    requires Sorted(s, lt)
    ensures forall i, j :: 0 <= i < j < |s| ==> !lt(s[j], s[i])
  {
    forall i, j | 0 <= i < j < |s|
      ensures !lt(s[j], s[i])
    {
      SortedUpTo(s, lt, i, j);
    }
  }
}
