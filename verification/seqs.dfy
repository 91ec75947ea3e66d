/**
 * The JavaScript array operations the pages rely on: `filter` with an element
 * predicate, `filter` by position, and `slice` with its index clamping.
 */
module Seqs {

  /** `s.filter(p)`: the elements satisfying `p`, in their original order. */
  function Filter<T(==)>(s: seq<T>, p: T -> bool): (r: seq<T>)
    ensures |r| <= |s|
    ensures forall i :: 0 <= i < |r| ==> r[i] in s && p(r[i])
    ensures forall i :: 0 <= i < |s| && p(s[i]) ==> s[i] in r
  {
    if s == [] then []
    else (if p(s[0]) then [s[0]] else []) + Filter(s[1..], p)
  }

  /** Every element `Filter` keeps comes from `s` and passes `p`. */
  lemma FilterMembers<T>(s: seq<T>, p: T -> bool)
    ensures forall x :: x in Filter(s, p) ==> x in s && p(x)
  {
    forall x | x in Filter(s, p) ensures x in s && p(x) {
      var i :| 0 <= i < |Filter(s, p)| && Filter(s, p)[i] == x;
    }
  }

  /** Turning one passing element into a failing one, all else equal, keeps one element fewer. */
  lemma {:induction false} FilterCountDrop<T>(s: seq<T>, t: seq<T>, p: T -> bool, k: int)
    requires |t| == |s| && 0 <= k < |s| && p(s[k]) && !p(t[k])
    requires forall i :: 0 <= i < |s| && i != k ==> t[i] == s[i]
    ensures |Filter(t, p)| + 1 == |Filter(s, p)|
  {
    if k == 0 {
      assert t[1..] == s[1..];
    } else {
      assert t[0] == s[0];
      FilterCountDrop(s[1..], t[1..], p, k - 1);
    }
  }

  /** Filtering commutes with concatenation, so the result keeps the input order. */
  lemma {:induction false} FilterConcat<T>(a: seq<T>, b: seq<T>, p: T -> bool)
    ensures Filter(a + b, p) == Filter(a, p) + Filter(b, p)
  {
    if a == [] {
      assert a + b == b;
    } else {
      assert (a + b)[1..] == a[1..] + b;
      FilterConcat(a[1..], b, p);
    }
  }

  /** A one-element sequence is kept or dropped whole. */
  lemma FilterSingleton<T>(a: T, p: T -> bool)
    ensures Filter([a], p) == if p(a) then [a] else []
  {
    assert [a][1..] == [];
  }

  /** Filtering a sequence with a known head. */
  lemma FilterCons<T>(h: T, t: seq<T>, p: T -> bool)
    ensures Filter([h] + t, p) == Filter([h], p) + Filter(t, p)
    ensures Filter([h], p) == if p(h) then [h] else []
  {
    assert ([h] + t)[1..] == t;
    FilterSingleton(h, p);
  }

  /** Filtering keeps every copy of an element that passes and none of one that fails. */
  lemma {:induction false} FilterMultiset<T>(s: seq<T>, p: T -> bool, x: T)
    ensures multiset(Filter(s, p))[x] == if p(x) then multiset(s)[x] else 0
  {
    if s != [] {
      assert s == [s[0]] + s[1..];
      FilterMultiset(s[1..], p, x);
    }
  }

  /** A predicate every element passes filters nothing out. */
  lemma {:induction false} FilterAllPass<T>(s: seq<T>, p: T -> bool)
    requires forall i :: 0 <= i < |s| ==> p(s[i])
    ensures Filter(s, p) == s
  {
    if s != [] {
      FilterAllPass(s[1..], p);
    }
  }

  /** A stronger predicate keeps no more elements than a weaker one. */
  lemma {:induction false} FilterMonotone<T>(s: seq<T>, p: T -> bool, q: T -> bool)
    requires forall i :: 0 <= i < |s| ==> p(s[i]) ==> q(s[i])
    ensures |Filter(s, p)| <= |Filter(s, q)|
  {
    if s != [] {
      FilterMonotone(s[1..], p, q);
    }
  }

  /** A relative array index as `slice` reads it: negatives count from the end, then clamp to `[0, len]`. */
  function ClampIndex(i: int, len: nat): (k: nat)
    ensures k <= len
    ensures 0 <= i <= len ==> k == i
    ensures i > len ==> k == len
  {
    if i < 0 then (if len + i < 0 then 0 else len + i)
    else if i > len then len
    else i
  }

  /** `s.slice(start, end)`. */
  function Slice<T>(s: seq<T>, start: int, end: int): (r: seq<T>)
    ensures |r| <= |s|
  {
    var a := ClampIndex(start, |s|);
    var b := ClampIndex(end, |s|);
    if a < b then s[a..b] else []
  }

  /** Two adjacent slices with non-negative bounds join into one. */
  lemma SliceConcat<T>(s: seq<T>, i: int, j: int, k: int)
    requires 0 <= i <= j <= k
    ensures Slice(s, i, j) + Slice(s, j, k) == Slice(s, i, k)
  {
    var a, b, c := ClampIndex(i, |s|), ClampIndex(j, |s|), ClampIndex(k, |s|);
    assert a <= b <= c;
    if a < b && b < c {
      assert s[a..b] + s[b..c] == s[a..c];
    }
  }

  /** A slice whose non-negative end does not pass its start is empty. */
  lemma SliceEmpty<T>(s: seq<T>, i: int, j: int)
    requires 0 <= j <= i
    ensures Slice(s, i, j) == []
  {
    assert ClampIndex(j, |s|) <= ClampIndex(i, |s|);
  }

  /** Nothing passes `p`, so nothing is kept. */
  lemma {:induction false} FilterNone<T>(s: seq<T>, p: T -> bool)
    requires forall i :: 0 <= i < |s| ==> !p(s[i])
    ensures Filter(s, p) == []
  {
    if s != [] {
      FilterNone(s[1..], p);
    }
  }

  /** Only position `k` passes `p`, so the filter keeps exactly that element. */
  lemma {:induction false} FilterExactlyOne<T>(s: seq<T>, p: T -> bool, k: int)
    requires 0 <= k < |s| && p(s[k])
    requires forall i :: 0 <= i < |s| && i != k ==> !p(s[i])
    ensures Filter(s, p) == [s[k]]
  {
    if k == 0 {
      FilterNone(s[1..], p);
    } else {
      FilterExactlyOne(s[1..], p, k - 1);
    }
  }

  /** When the filter keeps something, `find` stops inside the sequence. */
  lemma FilterFindsFirst<T>(s: seq<T>, p: T -> bool)
    ensures Filter(s, p) != [] ==> FirstIndex(s, p) < |s|
  {
    if FirstIndex(s, p) == |s| {
      FilterNone(s, p);
    }
  }

  /** Two sequences on which `p` gives the same answers position by position stop `find` at the same place. */
  lemma FirstIndexSameAnswers<T>(s: seq<T>, t: seq<T>, p: T -> bool)
    requires |s| == |t| && forall i :: 0 <= i < |s| ==> p(s[i]) == p(t[i])
    ensures FirstIndex(s, p) == FirstIndex(t, p)
  {
  }

  /** The position `find` stops at: the first element passing `p`, or `|s|` when none does. */
  function FirstIndex<T>(s: seq<T>, p: T -> bool): (k: nat)
    ensures k <= |s|
    ensures k < |s| ==> p(s[k])
    ensures forall j :: 0 <= j < k ==> !p(s[j])
  {
    if s == [] || p(s[0]) then 0 else 1 + FirstIndex(s[1..], p)
  }

  /** The position of the last element passing `p`, the one `new Map(...)` keeps; -1 when none does. */
  function LastIndex<T>(s: seq<T>, p: T -> bool): (k: int)
    ensures -1 <= k < |s|
    ensures k >= 0 ==> p(s[k])
    ensures forall j :: k < j < |s| ==> !p(s[j])
  {
    if s == [] then -1
    else if p(s[|s| - 1]) then |s| - 1
    else LastIndex(s[..|s| - 1], p)
  }

  /** `s.filter((_, j) => j !== i)`: drop the element at position `i`. */
  function DropIndex<T>(s: seq<T>, i: int): (r: seq<T>)
    ensures 0 <= i < |s| ==> r == s[..i] + s[i + 1..]
    ensures !(0 <= i < |s|) ==> r == s
  {
    if s == [] then []
    else (if i == 0 then [] else [s[0]]) + DropIndex(s[1..], i - 1)
  }
}
