/**
 * The `Vec`/slice operations the evaluation engine relies on: `sort`,
 * `reverse`, `iter().position(..)`, `remove(idx)`, and sums of values.
 */
module Sequences {
  import opened Wrappers

  predicate SortedAsc(s: seq<nat>) {
    forall i, j :: 0 <= i < j < |s| ==> s[i] <= s[j]
  }

  predicate SortedDesc(s: seq<nat>) {
    forall i, j :: 0 <= i < j < |s| ==> s[i] >= s[j]
  }

  /** Inserts `x` into an ascending sequence, before the first larger element. */
  function Insert(x: nat, s: seq<nat>): (r: seq<nat>)
    requires SortedAsc(s)
    ensures |r| == |s| + 1
    ensures SortedAsc(r) && multiset(r) == multiset(s) + multiset{x}
  {
    if s == [] || x <= s[0] then
      [x] + s
    else
      assert s == [s[0]] + s[1..];
      var tail := Insert(x, s[1..]);
      ConsSorted(s[0], s[1..], x, tail);
      [s[0]] + tail
  }

  /** A lower bound of `rest` and of `x` that heads a sorted arrangement of both keeps it sorted. */
  lemma ConsSorted(h: nat, rest: seq<nat>, x: nat, tail: seq<nat>)
    requires h <= x && forall k :: 0 <= k < |rest| ==> h <= rest[k]
    requires SortedAsc(tail) && multiset(tail) == multiset(rest) + multiset{x}
    ensures SortedAsc([h] + tail)
  {
    forall k | 0 <= k < |tail| ensures h <= tail[k] {
      assert tail[k] in multiset(rest) + multiset{x};
    }
  }

  /** `slice::sort` on values: an ascending permutation of `s`. */
  function Sort(s: seq<nat>): (r: seq<nat>)
    ensures |r| == |s|
    ensures SortedAsc(r) && multiset(r) == multiset(s)
  {
    if s == [] then []
    else
      assert s == [s[0]] + s[1..];
      Insert(s[0], Sort(s[1..]))
  }

  /** Two ascending arrangements of the same values are the same sequence. */
  lemma {:induction false} SortedUnique(a: seq<nat>, b: seq<nat>)
    requires SortedAsc(a) && SortedAsc(b) && multiset(a) == multiset(b)
    ensures a == b
  {
    assert |a| == |b| by { assert |multiset(a)| == |multiset(b)|; }
    if a != [] {
      MinHead(a, b);
      MinHead(b, a);
      assert a == [a[0]] + a[1..] && b == [b[0]] + b[1..];
      assert a[0] == b[0];
      assert multiset(a) == multiset([a[0]]) + multiset(a[1..]);
      assert multiset(b) == multiset([b[0]]) + multiset(b[1..]);
      assert multiset(a[1..]) == multiset(b[1..]) by {
        forall v ensures multiset(a[1..])[v] == multiset(b[1..])[v] {
          assert multiset(a)[v] == multiset([a[0]])[v] + multiset(a[1..])[v];
          assert multiset(b)[v] == multiset([b[0]])[v] + multiset(b[1..])[v];
        }
      }
      SortedUnique(a[1..], b[1..]);
    }
  }
  /** The head of an ascending sequence is its least element. */
  lemma MinHead(a: seq<nat>, b: seq<nat>)
    requires a != [] && b != [] && SortedAsc(b) && multiset(a) == multiset(b)
    ensures b[0] <= a[0]
  {
    assert a[0] in multiset(b);
    var i :| 0 <= i < |b| && b[i] == a[0];
  }

  /** `Sort` is the one ascending permutation: any other candidate equals it. */
  lemma SortUnique(s: seq<nat>, r: seq<nat>)
    requires SortedAsc(r) && multiset(r) == multiset(s)
    ensures Sort(s) == r
  {
    SortedUnique(Sort(s), r);
  }

  /** `slice::reverse`. */
  function Reverse(s: seq<nat>): (r: seq<nat>)
    ensures |r| == |s| && forall i :: 0 <= i < |s| ==> r[i] == s[|s| - 1 - i]
    ensures multiset(r) == multiset(s)
  {
    if s == [] then []
    else
      assert s == [s[0]] + s[1..];
      Reverse(s[1..]) + [s[0]]
  }

  lemma ReverseSorted(s: seq<nat>)
    requires SortedAsc(s)
    ensures SortedDesc(Reverse(s))
  {
  }

  /** `iter().position(|j| *j == v)`: the index of the first occurrence of `v`. */
  function FirstIndex(s: seq<nat>, v: nat): (r: Option<nat>)
    ensures r.None? <==> v !in s
    ensures r.Some? ==> r.value < |s| && s[r.value] == v && v !in s[..r.value]
  {
    if s == [] then None
    else if s[0] == v then Some(0)
    else match FirstIndex(s[1..], v)
      case None => None
      case Some(k) =>
        assert s[..k + 1] == [s[0]] + s[1..][..k];
        Some(k + 1)
  }

  /** `Vec::remove(idx)`: the sequence without its element at `idx`, order kept. */
  function RemoveAt(s: seq<nat>, idx: nat): (r: seq<nat>)
    requires idx < |s|
    ensures |r| == |s| - 1
  {
    s[..idx] + s[idx + 1..]
  }

  /** `remove(idx)` takes exactly one copy of `s[idx]` off the multiset. */
  lemma RemoveAtMultiset(s: seq<nat>, idx: nat)
    requires idx < |s|
    ensures multiset(RemoveAt(s, idx)) == multiset(s) - multiset{s[idx]}
  {
    assert s == s[..idx] + [s[idx]] + s[idx + 1..];
  }

  /**
   * Takes the first occurrence of `v` off `s`, if there is one
   * (`position` followed by `remove`).
   */
  function Consume(s: seq<nat>, v: nat): (r: seq<nat>)
    ensures multiset(r) == multiset(s) - multiset{v}
  {
    match FirstIndex(s, v)
    case Some(idx) => RemoveAtMultiset(s, idx); RemoveAt(s, idx)
    case None => s
  }

  function Sum(s: seq<nat>): nat {
    if s == [] then 0 else s[0] + Sum(s[1..])
  }

  lemma {:induction false} SumAppend(a: seq<nat>, b: seq<nat>)
    ensures Sum(a + b) == Sum(a) + Sum(b)
  {
    if a == [] {
      assert a + b == b;
    } else {
      assert (a + b)[1..] == a[1..] + b;
      SumAppend(a[1..], b);
    }
  }

  /** Removing one element takes exactly its value off the sum. */
  lemma {:induction false} SumRemoveAt(s: seq<nat>, idx: nat)
    requires idx < |s|
    ensures Sum(s) == s[idx] + Sum(RemoveAt(s, idx))
  {
    var r := RemoveAt(s, idx);
    if idx == 0 {
      assert r == s[1..];
    } else {
      var tail := RemoveAt(s[1..], idx - 1);
      assert r == [s[0]] + tail;
      assert r[1..] == tail;
      SumRemoveAt(s[1..], idx - 1);
    }
  }
}
