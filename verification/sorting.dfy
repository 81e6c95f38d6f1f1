/**
 Stable ordering by a real key (`sort_by` with `partial_cmp`, the keys
 being real numbers so that the comparison never fails), as an insertion
 sort on sequences.
 */
module Sorting {

  /** The keys never decrease along `s`. */
  predicate SortedBy<T>(s: seq<T>, key: T -> real) {
    forall i, j :: 0 <= i < j < |s| ==> key(s[i]) <= key(s[j])
  }

  /** `x` placed into `s` before the first entry whose key is not
      smaller, so that an entry taken from the front of the input lands
      before its equals. */
  function Insert<T>(x: T, s: seq<T>, key: T -> real): (r: seq<T>)
    ensures multiset(r) == multiset(s) + multiset{x}
    ensures |r| == |s| + 1
    decreases |s|
  {
    if |s| == 0 then [x]
    else if key(x) <= key(s[0]) then [x] + s
    else
      assert s == [s[0]] + s[1..];
      [s[0]] + Insert(x, s[1..], key)
  }

  /** Every key of `s` is at least `b`. */
  predicate AtLeast<T>(s: seq<T>, key: T -> real, b: real) {
    forall k :: 0 <= k < |s| ==> b <= key(s[k])
  }

  lemma AtLeastMultiset<T>(s: seq<T>, t: seq<T>, key: T -> real, b: real)
    requires AtLeast(s, key, b) && multiset(t) <= multiset(s)
    ensures AtLeast(t, key, b)
  {
    forall k | 0 <= k < |t| ensures b <= key(t[k]) {
      assert t[k] in multiset(s);
    }
  }

  /** Inserting into a sorted sequence keeps it sorted. */
  lemma {:induction false} InsertSorted<T>(x: T, s: seq<T>, key: T -> real)
    requires SortedBy(s, key)
    ensures SortedBy(Insert(x, s, key), key)
    decreases |s|
  {
    if |s| > 0 && key(s[0]) < key(x) {
      var rest := Insert(x, s[1..], key);
      InsertSorted(x, s[1..], key);
      assert AtLeast(s[1..] + [x], key, key(s[0]));
      assert multiset(rest) == multiset(s[1..] + [x]);
      AtLeastMultiset(s[1..] + [x], rest, key, key(s[0]));
      assert Insert(x, s, key) == [s[0]] + rest;
    }
  }

  /** The entries of `s` ordered by key: a sorted permutation. */
  function SortBy<T>(s: seq<T>, key: T -> real): (r: seq<T>)
    ensures SortedBy(r, key)
    ensures multiset(r) == multiset(s) && |r| == |s|
    decreases |s|
  {
    if |s| == 0 then []
    else
      assert s == [s[0]] + s[1..];
      var rest := SortBy(s[1..], key);
      InsertSorted(s[0], rest, key);
      Insert(s[0], rest, key)
  }

  /** Sorting a sorted sequence leaves it as it is. */
  lemma {:induction false} SortSorted<T>(s: seq<T>, key: T -> real)
    requires SortedBy(s, key)
    ensures SortBy(s, key) == s
    decreases |s|
  {
    if |s| > 0 {
      SortSorted(s[1..], key);
      assert SortBy(s, key) == Insert(s[0], s[1..], key);
      if |s| > 1 {
        assert key(s[0]) <= key(s[1]);
      }
      assert s == [s[0]] + s[1..];
    }
  }
}
