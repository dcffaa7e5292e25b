/**
 * Keep-highest / keep-lowest filtering in `roll` (src/lib/lib.rs): the pool's
 * values are sorted (and reversed for `Lowest`), all but `n` of them form the
 * drop list, and the pool is walked in order, each outcome whose value is
 * still on the drop list consuming the first matching entry and losing its
 * `retained` flag.
 */
module Retention {
  import opened Wrappers
  import opened Sequences
  import opened Dice

  /** The values to drop: the `|values| - n` lowest (`highest`) or largest (otherwise). */
  function DropList(values: seq<nat>, n: nat, highest: bool): (r: seq<nat>)
    requires n <= |values|
    ensures |r| == |values| - n
  {
    var sorted := Sort(values);
    var ordered := if highest then sorted else Reverse(sorted);
    ordered[..|values| - n]
  }

  /** The walk over the pool, consuming `removals` front to back. */
  function MarkDropped(items: seq<RollItem>, removals: seq<nat>): (r: seq<RollItem>)
    ensures |r| == |items|
    ensures forall i :: 0 <= i < |items| ==>
      r[i].value == items[i].value && r[i].quality == items[i].quality && (r[i].retained ==> items[i].retained)
    decreases |items|
  {
    if items == [] then []
    else
      var v := items[0].value;
      var head := if v in removals then items[0].(retained := false) else items[0];
      [head] + MarkDropped(items[1..], Consume(removals, v))
  }

  lemma MarkDroppedHead(items: seq<RollItem>, removals: seq<nat>)
    requires items != []
    ensures var r := MarkDropped(items, removals); var v := items[0].value;
      && r[0] == (if v in removals then items[0].(retained := false) else items[0])
      && r[0].retained == (items[0].retained && multiset(removals)[v] == 0)
      && r[1..] == MarkDropped(items[1..], Consume(removals, v))
  {
  }

  /** An empty drop list drops nothing. */
  lemma {:induction false} MarkDroppedNothing(items: seq<RollItem>)
    ensures MarkDropped(items, []) == items
  {
    if items != [] {
      MarkDroppedHead(items, []);
      MarkDroppedNothing(items[1..]);
      var r := MarkDropped(items, []);
      assert r == [r[0]] + r[1..];
    }
  }

  /** What the retention `match` yields, or the error its `panic!` stands for. */
  function Retain(rolls: seq<RollItem>, retention: RollRetention, count: nat): Result<seq<RollItem>, RollError>
    requires count <= |rolls|
  {
    match retention
    case All => Success(rolls)
    case Highest(n) =>
      if n > count then Failure(InvalidRetention(n))
      else Success(MarkDropped(rolls, DropList(Values(rolls), n, true)))
    case Lowest(n) =>
      if n > count then Failure(InvalidRetention(n))
      else Success(MarkDropped(rolls, DropList(Values(rolls), n, false)))
  }

  /** The `match self.retention` block; the walk is done by `DropMarked`. */
  method ApplyRetention(rolls: seq<RollItem>, retention: RollRetention, count: nat)
    returns (r: Result<seq<RollItem>, RollError>)
    requires count <= |rolls|
    ensures r == Retain(rolls, retention, count)
  {
    if retention.All? {
      return Success(rolls);
    }
    var n := retention.n;
    if n > count {
      return Failure(InvalidRetention(n));
    }
    var values := Values(rolls);
    var removals := Sort(values);
    if retention.Lowest? {
      removals := Reverse(removals);
    }
    removals := removals[..|rolls| - n];
    assert removals == DropList(values, n, retention.Highest?);
    var out := DropMarked(rolls, removals);
    return Success(out);
  }

  /**
   * The `iter_mut().for_each` walk: each outcome whose value is found on the
   * remaining removals takes that entry off and has its flag cleared.
   */
  method DropMarked(rolls: seq<RollItem>, removals: seq<nat>) returns (out: seq<RollItem>)
    ensures out == MarkDropped(rolls, removals)
  {
    ghost var target := MarkDropped(rolls, removals);
    var left := removals;
    out := [];
    assert rolls[0..] == rolls;
    for i := 0 to |rolls|
      invariant |out| == i
      invariant out + MarkDropped(rolls[i..], left) == target
    {
      ghost var walked := MarkDropped(rolls[i..], left);
      MarkDroppedHead(rolls[i..], left);
      assert rolls[i..][1..] == rolls[i + 1..];
      var item := rolls[i];
      var idx := FirstIndex(left, item.value);
      assert Consume(left, item.value) == if idx.Some? then RemoveAt(left, idx.value) else left;
      if idx.Some? {
        left := RemoveAt(left, idx.value);
        item := item.(retained := false);
      }
      assert walked == [item] + MarkDropped(rolls[i + 1..], left);
      ConcatStep(out, item, MarkDropped(rolls[i + 1..], left), walked);
      out := out + [item];
    }
    assert out + MarkDropped(rolls[|rolls|..], left) == out;
  }

  lemma ConcatStep<T>(done: seq<T>, item: T, rest: seq<T>, walked: seq<T>)
    requires walked == [item] + rest
    ensures (done + [item]) + rest == done + walked
  {
  }

  /** How often `v` occurs in `s`. */
  function Occurrences(s: seq<nat>, v: nat): nat {
    multiset(s)[v]
  }

  /**
   * The tie-breaking rule: outcome `i` loses its flag exactly when fewer
   * copies of its value come before it in the pool than the drop list holds,
   * so among equal values the earliest are the ones dropped.
   */
  lemma {:induction false} DroppedIff(items: seq<RollItem>, removals: seq<nat>, i: nat)
    requires i < |items|
    ensures var v := items[i].value;
      MarkDropped(items, removals)[i].retained
        == (items[i].retained && Occurrences(Values(items)[..i], v) >= Occurrences(removals, v))
  {
    MarkDroppedHead(items, removals);
    var v := items[i].value;
    if i == 0 {
      assert Values(items)[..i] == [];
    } else {
      var v0 := items[0].value;
      var rest := Consume(removals, v0);
      var seen := Values(items[1..])[..i - 1];
      var r := MarkDropped(items, removals);
      DroppedIff(items[1..], rest, i - 1);
      assert items[1..][i - 1] == items[i];
      assert r[i] == MarkDropped(items[1..], rest)[i - 1];
      ValuesPrefixCons(items, i);
      OccurrencesStep(v0, seen, removals, v);
      assert Occurrences(Values(items)[..i], v) == Occurrences([v0] + seen, v);
      assert r[i].retained == (items[i].retained && Occurrences(seen, v) >= Occurrences(rest, v));
    }
  }

  lemma ValuesPrefixCons(items: seq<RollItem>, i: nat)
    requires 0 < i <= |items|
    ensures Values(items)[..i] == [items[0].value] + Values(items[1..])[..i - 1]
  {
  }

  /** Passing one pool value keeps "enough copies seen" in step with consuming it from the drop list. */
  lemma OccurrencesStep(v0: nat, seen: seq<nat>, removals: seq<nat>, v: nat)
    ensures (Occurrences([v0] + seen, v) >= Occurrences(removals, v))
      == (Occurrences(seen, v) >= Occurrences(Consume(removals, v0), v))
  {
    assert multiset([v0] + seen) == multiset{v0} + multiset(seen);
  }

  /** Outcomes whose flag is still set, and those whose flag is cleared, by value. */
  function RetainedValues(items: seq<RollItem>): seq<nat> {
    if items == [] then []
    else (if items[0].retained then [items[0].value] else []) + RetainedValues(items[1..])
  }

  function DroppedValues(items: seq<RollItem>): seq<nat> {
    if items == [] then []
    else (if items[0].retained then [] else [items[0].value]) + DroppedValues(items[1..])
  }

  predicate AllRetained(items: seq<RollItem>) {
    forall i :: 0 <= i < |items| ==> items[i].retained
  }

  lemma {:induction false} RetainedDroppedPartition(items: seq<RollItem>)
    ensures multiset(RetainedValues(items)) + multiset(DroppedValues(items)) == multiset(Values(items))
  {
    if items != [] {
      RetainedDroppedPartition(items[1..]);
      assert Values(items) == [items[0].value] + Values(items[1..]);
    }
  }

  lemma ValuesUnchanged(items: seq<RollItem>, removals: seq<nat>)
    ensures Values(MarkDropped(items, removals)) == Values(items)
  {
  }

  lemma {:induction false} DroppedAreRemovals(items: seq<RollItem>, removals: seq<nat>)
    requires AllRetained(items)
    requires multiset(removals) <= multiset(Values(items))
    ensures multiset(DroppedValues(MarkDropped(items, removals))) == multiset(removals)
  {
    if items == [] {
      assert multiset(removals) == multiset{};
    } else {
      var v0 := items[0].value;
      var rest := Consume(removals, v0);
      var r := MarkDropped(items, removals);
      MarkDroppedHead(items, removals);
      ValuesCons(items);
      ConsumeWithin(removals, v0, Values(items[1..]));
      DroppedAreRemovals(items[1..], rest);
      if v0 in removals {
        assert DroppedValues(r) == [v0] + DroppedValues(r[1..]);
        AddBack(multiset(removals), v0);
      } else {
        assert DroppedValues(r) == DroppedValues(r[1..]);
      }
    }
  }

  lemma ValuesCons(items: seq<RollItem>)
    requires items != []
    ensures Values(items) == [items[0].value] + Values(items[1..])
  {
  }

  lemma AddBack(m: multiset<nat>, v: nat)
    requires v in m
    ensures multiset{v} + (m - multiset{v}) == m
  {
  }

  lemma ConsumeWithin(removals: seq<nat>, v0: nat, tail: seq<nat>)
    requires multiset(removals) <= multiset([v0] + tail)
    ensures multiset(Consume(removals, v0)) <= multiset(tail)
  {
    assert multiset([v0] + tail) == multiset{v0} + multiset(tail);
    forall x ensures multiset(Consume(removals, v0))[x] <= multiset(tail)[x] {
      assert multiset(removals)[x] <= multiset{v0}[x] + multiset(tail)[x];
    }
  }

  /**
   * When the drop list is part of the pool, the walk consumes all of it:
   * the dropped values are exactly the drop list, the rest stay retained.
   */
  lemma MarkDroppedConsumes(items: seq<RollItem>, removals: seq<nat>)
    requires AllRetained(items)
    requires multiset(removals) <= multiset(Values(items))
    ensures var r := MarkDropped(items, removals);
      && multiset(DroppedValues(r)) == multiset(removals)
      && multiset(RetainedValues(r)) == multiset(Values(items)) - multiset(removals)
      && |RetainedValues(r)| == |items| - |removals|
  {
    var r := MarkDropped(items, removals);
    DroppedAreRemovals(items, removals);
    RetainedDroppedPartition(r);
    ValuesUnchanged(items, removals);
    assert |multiset(RetainedValues(r))| + |multiset(DroppedValues(r))| == |multiset(Values(items))|;
  }

  /** `v` occurs at `j`, so fewer copies of it precede `j` than occur in all of `vals`. */
  lemma OccurrencesBefore(vals: seq<nat>, j: nat)
    requires j < |vals|
    ensures Occurrences(vals[..j], vals[j]) < Occurrences(vals, vals[j])
  {
    assert vals == vals[..j] + vals[j..];
    assert vals[j..][0] == vals[j];
  }

  /** Every element of `s` after position `k` stays on the far side of `s[p]`. */
  lemma OutsidePrefix(s: seq<nat>, k: nat, p: nat, w: nat, asc: bool)
    requires p < k <= |s|
    requires if asc then SortedAsc(s) else SortedDesc(s)
    requires if asc then w < s[p] else w > s[p]
    ensures Occurrences(s[..k], w) == Occurrences(s, w)
  {
    assert s == s[..k] + s[k..];
    assert w !in s[k..] by {
      forall q | 0 <= q < |s| - k ensures s[k..][q] != w {
        assert s[k..][q] == s[k + q];
      }
    }
  }

  /**
   * One dropped and one retained outcome, when the drop list is a prefix of
   * a sorted permutation of the pool: the dropped value is on the "drop"
   * side of the retained one.
   */
  lemma PairDominance(items: seq<RollItem>, s: seq<nat>, k: nat, asc: bool, i: nat, j: nat)
    requires AllRetained(items) && k <= |s|
    requires multiset(s) == multiset(Values(items))
    requires if asc then SortedAsc(s) else SortedDesc(s)
    requires i < |items| && j < |items|
    requires !MarkDropped(items, s[..k])[i].retained && MarkDropped(items, s[..k])[j].retained
    ensures if asc then items[i].value <= items[j].value else items[i].value >= items[j].value
  {
    var vals := Values(items);
    var v, w := items[i].value, items[j].value;
    DroppedIff(items, s[..k], i);
    DroppedIff(items, s[..k], j);
    if (asc && w < v) || (!asc && w > v) {
      assert v in multiset(s[..k]);
      var p :| 0 <= p < k && s[..k][p] == v;
      OutsidePrefix(s, k, p, w, asc);
      OccurrencesBefore(vals, j);
      assert false;
    }
  }

  /** The multiset of the last `|s| - k` elements is what remains after the first `k`. */
  lemma SplitMultiset(s: seq<nat>, k: nat)
    requires k <= |s|
    ensures multiset(s) - multiset(s[..k]) == multiset(s[k..])
  {
    assert s == s[..k] + s[k..];
  }

  /**
   * Walking a pool with the first `k` entries of an ascending permutation of
   * its values keeps `|items| - k` outcomes, holding the remaining entries,
   * and every dropped value is at most every retained one.
   */
  lemma KeepAfterAscending(items: seq<RollItem>, s: seq<nat>, k: nat)
    requires AllRetained(items) && k <= |s|
    requires multiset(s) == multiset(Values(items)) && SortedAsc(s)
    ensures var r := MarkDropped(items, s[..k]);
      && |RetainedValues(r)| == |items| - k
      && multiset(RetainedValues(r)) == multiset(s[k..])
      && forall i, j :: 0 <= i < |r| && 0 <= j < |r| && !r[i].retained && r[j].retained ==>
           items[i].value <= items[j].value
  {
    KeepRest(items, s, k);
    DropDominated(items, s, k, true);
  }

  /** The same with a descending permutation: no dropped value is below a retained one. */
  lemma KeepAfterDescending(items: seq<RollItem>, s: seq<nat>, k: nat)
    requires AllRetained(items) && k <= |s|
    requires multiset(s) == multiset(Values(items)) && SortedDesc(s)
    ensures var r := MarkDropped(items, s[..k]);
      && |RetainedValues(r)| == |items| - k
      && multiset(RetainedValues(r)) == multiset(s[k..])
      && forall i, j :: 0 <= i < |r| && 0 <= j < |r| && !r[i].retained && r[j].retained ==>
           items[i].value >= items[j].value
  {
    KeepRest(items, s, k);
    DropDominated(items, s, k, false);
  }

  /** Dropping the first `k` entries of a permutation of the pool keeps the other entries. */
  lemma KeepRest(items: seq<RollItem>, s: seq<nat>, k: nat)
    requires AllRetained(items) && k <= |s|
    requires multiset(s) == multiset(Values(items))
    ensures var r := MarkDropped(items, s[..k]);
      && |RetainedValues(r)| == |items| - k
      && multiset(RetainedValues(r)) == multiset(s[k..])
  {
    assert s == s[..k] + s[k..];
    MarkDroppedConsumes(items, s[..k]);
    SplitMultiset(s, k);
  }

  lemma DropDominated(items: seq<RollItem>, s: seq<nat>, k: nat, asc: bool)
    requires AllRetained(items) && k <= |s|
    requires multiset(s) == multiset(Values(items))
    requires if asc then SortedAsc(s) else SortedDesc(s)
    ensures var r := MarkDropped(items, s[..k]);
      forall i, j :: 0 <= i < |r| && 0 <= j < |r| && !r[i].retained && r[j].retained ==>
        if asc then items[i].value <= items[j].value else items[i].value >= items[j].value
  {
    var r := MarkDropped(items, s[..k]);
    forall i, j | 0 <= i < |r| && 0 <= j < |r| && !r[i].retained && r[j].retained
      ensures if asc then items[i].value <= items[j].value else items[i].value >= items[j].value
    {
      PairDominance(items, s, k, asc, i, j);
    }
  }

  /** Exactly `n` outcomes keep their flag, and they hold the `n` largest values of the pool. */
  predicate HoldsHighest(rolls: seq<RollItem>, n: nat) {
    && n <= |rolls|
    && |RetainedValues(rolls)| == n
    && multiset(RetainedValues(rolls)) == multiset(Sort(Values(rolls))[|rolls| - n..])
  }

  /** Exactly `n` outcomes keep their flag, and they hold the `n` smallest values of the pool. */
  predicate HoldsLowest(rolls: seq<RollItem>, n: nat) {
    && n <= |rolls|
    && |RetainedValues(rolls)| == n
    && multiset(RetainedValues(rolls)) == multiset(Reverse(Sort(Values(rolls)))[|rolls| - n..])
  }

  /**
   * `Highest(n)` with `n` at most the dice count: exactly `n` outcomes stay
   * retained, their values are the `n` largest of the pool, and no dropped
   * value exceeds a retained one. A larger `n` is an error.
   */
  lemma RetainHighest(rolls: seq<RollItem>, n: nat, count: nat)
    requires AllRetained(rolls) && count <= |rolls|
    ensures Retain(rolls, Highest(n), count).Failure? <==> n > count
    ensures n <= count ==>
      var r := Retain(rolls, Highest(n), count).value;
      && |RetainedValues(r)| == n
      && multiset(RetainedValues(r)) == multiset(Sort(Values(rolls))[|rolls| - n..])
      && forall i, j :: 0 <= i < |r| && 0 <= j < |r| && !r[i].retained && r[j].retained ==>
           rolls[i].value <= rolls[j].value
  {
    if n <= count {
      KeepAfterAscending(rolls, Sort(Values(rolls)), |rolls| - n);
    }
  }

  /**
   * `Lowest(n)` with `n` at most the dice count: exactly `n` outcomes stay
   * retained, their values are the `n` smallest of the pool, and no dropped
   * value is below a retained one. A larger `n` is an error.
   */
  lemma RetainLowest(rolls: seq<RollItem>, n: nat, count: nat)
    requires AllRetained(rolls) && count <= |rolls|
    ensures Retain(rolls, Lowest(n), count).Failure? <==> n > count
    ensures n <= count ==>
      var r := Retain(rolls, Lowest(n), count).value;
      && |RetainedValues(r)| == n
      && multiset(RetainedValues(r)) == multiset(Reverse(Sort(Values(rolls)))[|rolls| - n..])
      && forall i, j :: 0 <= i < |r| && 0 <= j < |r| && !r[i].retained && r[j].retained ==>
           rolls[i].value >= rolls[j].value
  {
    if n <= count {
      var sorted := Sort(Values(rolls));
      ReverseSorted(sorted);
      KeepAfterDescending(rolls, Reverse(sorted), |rolls| - n);
    }
  }

  /**
   * Whatever the policy, retention keeps the pool's length, order, values and
   * qualities and only ever clears flags; `All` changes nothing.
   */
  lemma RetainOnlyClears(rolls: seq<RollItem>, retention: RollRetention, count: nat)
    requires count <= |rolls|
    ensures var r := Retain(rolls, retention, count);
      r.Success? ==>
        && |r.value| == |rolls|
        && (forall i :: 0 <= i < |rolls| ==>
              && r.value[i].value == rolls[i].value
              && r.value[i].quality == rolls[i].quality
              && (r.value[i].retained ==> rolls[i].retained))
        && (retention.All? ==> r.value == rolls)
  {
  }
}
