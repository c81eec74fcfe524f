/** Python's `list.sort()`, modelled as an insertion sort under a strict order `lt`
    (the list element type's `<`, or a class's `__lt__`). */
module Sorting {

  ghost predicate StrictOrder<T(!new)>(lt: (T, T) -> bool)
  {
    && (forall a :: !lt(a, a))
    && (forall a, b, c :: lt(a, b) && lt(b, c) ==> lt(a, c))
  }

  /** No element is less than an earlier one. */
  ghost predicate Sorted<T>(s: seq<T>, lt: (T, T) -> bool)
  {
    forall i, j :: 0 <= i < j < |s| ==> !lt(s[j], s[i])
  }

  /** No element occurs twice. */
  ghost predicate Distinct<T(!new)>(s: seq<T>)
  {
    forall x :: multiset(s)[x] <= 1
  }

  /** Puts `x` after every element it is not less than. */
  function Insert<T(!new)>(x: T, s: seq<T>, lt: (T, T) -> bool): (r: seq<T>)
    requires StrictOrder(lt) && Sorted(s, lt)
    ensures Sorted(r, lt)
    ensures multiset(r) == multiset(s) + multiset{x}
    ensures forall k :: 0 <= k < |r| ==> r[k] == x || r[k] in s
  {
    if s == [] then [x]
    else if lt(x, s[0]) then [x] + s
    else
      var r' := Insert(x, s[1..], lt);
      assert s == [s[0]] + s[1..];
      ConsSorted(s[0], r', x, s[1..], lt);
      [s[0]] + r'
  }

  /** `h` may head `r` when it is not above `x` nor any element of the sorted `t`,
      and `r` holds only `x` and elements of `t`. */
  lemma ConsSorted<T(!new)>(h: T, r: seq<T>, x: T, t: seq<T>, lt: (T, T) -> bool)
    requires StrictOrder(lt) && Sorted(r, lt) && Sorted([h] + t, lt) && !lt(x, h)
    requires forall k :: 0 <= k < |r| ==> r[k] == x || r[k] in t
    ensures Sorted([h] + r, lt)
  {
    forall k | 0 <= k < |r|
      ensures !lt(r[k], h)
    {
      if r[k] != x {
        var j :| 0 <= j < |t| && t[j] == r[k];
        assert ([h] + t)[0] == h && ([h] + t)[j + 1] == r[k];
      }
    }
    assert forall k :: 0 < k <= |r| ==> ([h] + r)[k] == r[k - 1];
  }

  /** Sorts `s`: the result is sorted and a permutation of `s`. */
  function Sort<T(!new)>(s: seq<T>, lt: (T, T) -> bool): (r: seq<T>)
    requires StrictOrder(lt)
    ensures Sorted(r, lt)
    ensures multiset(r) == multiset(s)
  {
    if s == [] then []
    else
      assert s == s[..|s| - 1] + [s[|s| - 1]];
      Insert(s[|s| - 1], Sort(s[..|s| - 1], lt), lt)
  }

  /** Two equal entries of a list count twice. */
  lemma Twice<T>(s: seq<T>, i: nat, j: nat)
    requires i < j < |s| && s[i] == s[j]
    ensures multiset(s)[s[i]] >= 2
  {
    assert s == s[..j] + s[j..];
    assert s[i] in s[..j];
    assert s[j..] == [s[j]] + s[j + 1..];
  }

  /** Under an order that is total on distinct elements, a sorted list without
      duplicates is strictly ascending. */
  lemma {:induction false} SortedDistinctAscending<T(!new)>(s: seq<T>, lt: (T, T) -> bool)
    requires Sorted(s, lt) && Distinct(s)
    requires forall a, b :: a != b ==> lt(a, b) || lt(b, a)
    ensures forall i, j :: 0 <= i < j < |s| ==> lt(s[i], s[j])
  {
    forall i, j | 0 <= i < j < |s|
      ensures lt(s[i], s[j])
    {
      if s[i] == s[j] {
        Twice(s, i, j);
        assert false;
      }
    }
  }
}
