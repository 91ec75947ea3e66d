/**
 * `Array.prototype.sort` with a numeric comparator `(a, b) => key(a) - key(b)`.
 * The ECMAScript sort is stable, so it is modelled as a stable insertion sort
 * ascending by an integer key; a descending order uses the negated key.
 */
module Sorting {
  import opened Seqs

  /** Keys never decrease from left to right. */
  predicate SortedBy<T>(s: seq<T>, key: T -> int) {
    forall i, j :: 0 <= i < j < |s| ==> key(s[i]) <= key(s[j])
  }

  /** Places `x` in front of the first element whose key is not smaller than its own. */
  function Insert<T(==)>(x: T, s: seq<T>, key: T -> int): (r: seq<T>)
    requires SortedBy(s, key)
    ensures SortedBy(r, key)
    ensures multiset(r) == multiset(s) + multiset{x}
  {
    if s == [] || key(x) <= key(s[0]) then
      SortedCons(x, s, key);
      [x] + s
    else
      var t := Insert(x, s[1..], key);
      BoundedByPermutation(s[0], t, s[1..], x, key);
      SortedCons(s[0], t, key);
      assert s == [s[0]] + s[1..];
      [s[0]] + t
  }

  /** A sorted sequence stays sorted behind a head no larger than any of its keys. */
  lemma SortedCons<T>(h: T, t: seq<T>, key: T -> int)
    requires SortedBy(t, key)
    requires t == [] || key(h) <= key(t[0])
    ensures SortedBy([h] + t, key)
  {
  }

  /** A lower bound on the keys of `u` and on `x` bounds every key of a permutation of `u + [x]`. */
  lemma BoundedByPermutation<T>(lo: T, t: seq<T>, u: seq<T>, x: T, key: T -> int)
    requires multiset(t) == multiset(u) + multiset{x}
    requires key(lo) <= key(x)
    requires forall i :: 0 <= i < |u| ==> key(lo) <= key(u[i])
    ensures forall i :: 0 <= i < |t| ==> key(lo) <= key(t[i])
  {
    forall i | 0 <= i < |t| ensures key(lo) <= key(t[i]) {
      assert t[i] in multiset(t);
      if t[i] != x {
        assert t[i] in multiset(u);
        var j :| 0 <= j < |u| && u[j] == t[i];
      }
    }
  }

  /** The stable sort of `s` by ascending key. */
  function SortBy<T(==)>(s: seq<T>, key: T -> int): (r: seq<T>)
    ensures SortedBy(r, key)
    ensures multiset(r) == multiset(s)
    ensures |r| == |s|
  {
    if s == [] then []
    else
      assert s == [s[0]] + s[1..];
      var r := Insert(s[0], SortBy(s[1..], key), key);
      assert |r| == |multiset(r)|;
      r
  }

  /** The test "has key `k`", as a predicate value for `Filter`. */
  function HasKey<T>(key: T -> int, k: int): T -> bool {
    y => key(y) == k
  }

  /** The elements of `s` whose key is `k`, in their order in `s`. */
  function KeyClass<T(==)>(s: seq<T>, key: T -> int, k: int): seq<T> {
    Filter(s, HasKey(key, k))
  }

  /** Inserting `x` puts it in front of every element that shares its key. */
  lemma {:induction false} InsertStable<T>(x: T, s: seq<T>, key: T -> int, k: int)
    requires SortedBy(s, key)
    ensures KeyClass(Insert(x, s, key), key, k) ==
            (if key(x) == k then [x] else []) + KeyClass(s, key, k)
    decreases |s|, 1
  {
    var p := HasKey(key, k);
    if s == [] || key(x) <= key(s[0]) {
      assert Insert(x, s, key) == [x] + s;
      FilterCons(x, s, p);
    } else {
      InsertStablePastHead(x, s, key, k);
    }
  }

  /** The case of `InsertStable` where `x` goes behind the head of `s`. */
  lemma {:induction false} InsertStablePastHead<T>(x: T, s: seq<T>, key: T -> int, k: int)
    requires SortedBy(s, key) && s != [] && key(s[0]) < key(x)
    ensures KeyClass(Insert(x, s, key), key, k) ==
            (if key(x) == k then [x] else []) + KeyClass(s, key, k)
    decreases |s|, 0
  {
    var p := HasKey(key, k);
    var t := Insert(x, s[1..], key);
    InsertStable(x, s[1..], key, k);
    assert Insert(x, s, key) == [s[0]] + t;
    assert s == [s[0]] + s[1..];
    FilterCons(s[0], t, p);
    FilterCons(s[0], s[1..], p);
    assert key(x) == k ==> !p(s[0]);
    ShiftMark(Filter(Insert(x, s, key), p), Filter(s, p), Filter([s[0]], p),
              if key(x) == k then [x] else [], Filter(t, p), Filter(s[1..], p));
  }

  /** Regrouping used by `InsertStablePastHead`: one of `head` and `mark` is empty. */
  lemma ShiftMark<T>(a: seq<T>, b: seq<T>, head: seq<T>, mark: seq<T>, ft: seq<T>, fs: seq<T>)
    requires a == head + ft && b == head + fs && ft == mark + fs
    requires head == [] || mark == []
    ensures a == mark + b
  {
  }

  /** Stability: elements with equal keys come out in the order they went in. */
  lemma {:induction false} SortByStable<T>(s: seq<T>, key: T -> int, k: int)
    ensures KeyClass(SortBy(s, key), key, k) == KeyClass(s, key, k)
  {
    if s != [] {
      var p := HasKey(key, k);
      SortByStable(s[1..], key, k);
      InsertStable(s[0], SortBy(s[1..], key), key, k);
      assert s == [s[0]] + s[1..];
      FilterCons(s[0], s[1..], p);
    }
  }

  /** A sequence already in key order is returned unchanged. */
  lemma {:induction false} SortBySortedIsIdentity<T>(s: seq<T>, key: T -> int)
    requires SortedBy(s, key)
    ensures SortBy(s, key) == s
  {
    if s != [] {
      SortBySortedIsIdentity(s[1..], key);
      assert s == [s[0]] + s[1..];
    }
  }

  /** With a key that never distinguishes two elements, sorting keeps the input order. */
  lemma ConstantKeyKeepsOrder<T>(s: seq<T>, key: T -> int)
    requires forall x, y :: key(x) == key(y)
    ensures SortBy(s, key) == s
  {
    SortBySortedIsIdentity(s, key);
  }
}
