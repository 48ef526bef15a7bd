// Stable sorting by an integer key: the specification of Python's `list.sort(key=...)`
// (a stable sort) and an in-place insertion sort proved to compute it.
module Sorting {

  /** Inserts x after every element of s whose key is not larger than x's,
      scanning from the right. */
  function Insert<T>(s: seq<T>, x: T, key: T -> int): seq<T>
    decreases |s|
  {
    if s == [] || key(s[|s| - 1]) <= key(x) then s + [x]
    else Insert(s[..|s| - 1], x, key) + [s[|s| - 1]]
  }

  /** The stable sort of s by key: each element in turn, left to right, is
      inserted into the sorted prefix before it. */
  function SortBy<T>(s: seq<T>, key: T -> int): seq<T>
    decreases |s|
  {
    if s == [] then [] else Insert(SortBy(s[..|s| - 1], key), s[|s| - 1], key)
  }

  predicate SortedBy<T>(s: seq<T>, key: T -> int)
  {
    forall i, j | 0 <= i < j < |s| :: key(s[i]) <= key(s[j])
  }

  /** The elements of s that have key k, in their order in s. */
  function WithKey<T>(s: seq<T>, key: T -> int, k: int): seq<T>
    decreases |s|
  {
    if s == [] then []
    else WithKey(s[..|s| - 1], key, k) + (if key(s[|s| - 1]) == k then [s[|s| - 1]] else [])
  }

  lemma {:induction false} InsertElements<T>(s: seq<T>, x: T, key: T -> int)
    ensures multiset(Insert(s, x, key)) == multiset(s) + multiset{x}
    decreases |s|
  {
    if s != [] && key(s[|s| - 1]) > key(x) {
      var init, last := s[..|s| - 1], s[|s| - 1];
      assert s == init + [last];
      InsertElements(init, x, key);
    }
  }

  lemma {:induction false} InsertSorted<T>(s: seq<T>, x: T, key: T -> int)
    requires SortedBy(s, key)
    ensures SortedBy(Insert(s, x, key), key)
    decreases |s|
  {
    if s != [] && key(s[|s| - 1]) > key(x) {
      var init, last := s[..|s| - 1], s[|s| - 1];
      InsertSorted(init, x, key);
      InsertElements(init, x, key);
      var r := Insert(init, x, key);
      forall k | 0 <= k < |r|
        ensures key(r[k]) <= key(last)
      {
        var y := r[k];
        assert y in multiset(r);
        assert y in init || y == x;
        if y != x {
          var m :| 0 <= m < |init| && init[m] == y;
          assert s[m] == y;
        }
      }
    }
  }

  /** SortBy orders by key and only rearranges its input. */
  lemma {:induction false} SortByProperties<T>(s: seq<T>, key: T -> int)
    ensures SortedBy(SortBy(s, key), key)
    ensures multiset(SortBy(s, key)) == multiset(s)
    ensures |SortBy(s, key)| == |s|
    decreases |s|
  {
    if s != [] {
      var init, last := s[..|s| - 1], s[|s| - 1];
      assert s == init + [last];
      SortByProperties(init, key);
      InsertSorted(SortBy(init, key), last, key);
      InsertElements(SortBy(init, key), last, key);
      assert |multiset(SortBy(s, key))| == |multiset(s)|;
    }
  }

  lemma WithKeyAppend<T>(s: seq<T>, y: T, key: T -> int, k: int)
    ensures WithKey(s + [y], key, k) == WithKey(s, key, k) + (if key(y) == k then [y] else [])
  {
    assert (s + [y])[..|s|] == s;
  }

  lemma {:induction false} InsertKeepsKeyOrder<T>(s: seq<T>, x: T, key: T -> int, k: int)
    ensures WithKey(Insert(s, x, key), key, k) == WithKey(s, key, k) + (if key(x) == k then [x] else [])
    decreases |s|
  {
    if s == [] || key(s[|s| - 1]) <= key(x) {
      WithKeyAppend(s, x, key, k);
    } else {
      var init, last := s[..|s| - 1], s[|s| - 1];
      InsertKeepsKeyOrder(init, x, key, k);
      WithKeyAppend(Insert(init, x, key), last, key, k);
    }
  }

  /** Stability: elements with equal keys keep their relative order. */
  lemma {:induction false} SortByStable<T>(s: seq<T>, key: T -> int, k: int)
    ensures WithKey(SortBy(s, key), key, k) == WithKey(s, key, k)
    decreases |s|
  {
    if s != [] {
      var init, last := s[..|s| - 1], s[|s| - 1];
      SortByStable(init, key, k);
      InsertKeepsKeyOrder(SortBy(init, key), last, key, k);
    }
  }

  /** Insert places x right after the last element whose key is not larger
      than x's. */
  lemma {:induction false} InsertAt<T>(s: seq<T>, x: T, key: T -> int, j: nat)
    requires j <= |s|
    requires forall k | j <= k < |s| :: key(s[k]) > key(x)
    requires j == 0 || key(s[j - 1]) <= key(x)
    ensures Insert(s, x, key) == s[..j] + [x] + s[j..]
    decreases |s|
  {
    if j == |s| {
      assert s[..j] == s && s[j..] == [];
    } else {
      var init, last := s[..|s| - 1], s[|s| - 1];
      assert key(last) > key(x);
      InsertAt(init, x, key, j);
      assert init[..j] == s[..j];
      assert init[j..] + [last] == s[j..];
    }
  }

  /** Moves a[i] left past every larger key in a[..i]. */
  method InsertInPlace<T>(a: array<T>, i: nat, key: T -> int)
    requires i < a.Length
    modifies a
    ensures a[..i + 1] == Insert(old(a[..i]), old(a[i]), key)
    ensures forall k | i < k < a.Length :: a[k] == old(a[k])
  {
    var x := a[i];
    ghost var prefix := a[..i];
    var j := i;
    while j > 0 && key(a[j - 1]) > key(x)
      invariant 0 <= j <= i
      invariant forall k | 0 <= k < j :: a[k] == prefix[k]
      invariant forall k | j < k <= i :: a[k] == prefix[k - 1]
      invariant forall k | j <= k < i :: key(prefix[k]) > key(x)
      invariant forall k | i < k < a.Length :: a[k] == old(a[k])
    {
      a[j] := a[j - 1];
      j := j - 1;
    }
    a[j] := x;
    InsertAt(prefix, x, key, j);
    assert a[..i + 1] == prefix[..j] + [x] + prefix[j..];
  }

  /** Insertion sort in place; the array ends up holding the stable sort of
      what it held, as Python's `list.sort(key=...)` leaves its list. */
  method SortInPlace<T>(a: array<T>, key: T -> int)
    modifies a
    ensures a[..] == SortBy(old(a[..]), key)
  {
    ghost var input := a[..];
    var i := 0;
    while i < a.Length
      invariant 0 <= i <= a.Length
      invariant a[..i] == SortBy(input[..i], key)
      invariant forall k | i <= k < a.Length :: a[k] == input[k]
    {
      assert input[..i + 1][..i] == input[..i];
      InsertInPlace(a, i, key);
      i := i + 1;
    }
    assert a[..] == a[..a.Length] && input == input[..a.Length];
  }
}
