/**
 * The drawing loop of `roll` (src/lib/lib.rs): `count` dice are drawn and,
 * when a threshold is set, every draw at or above it is followed by another
 * draw of the same die. The random generator is replaced by the sequence
 * `draws`, consumed from the front.
 */
module Explosion {
  import opened Wrappers
  import opened Dice

  /** A draw ends its die's chain when there is no threshold or it is below it. */
  predicate EndsChain(v: nat, t: Option<nat>) {
    t.None? || v < t.value
  }

  /** How many draws of `s` end a chain. */
  function CountEnds(s: seq<nat>, t: Option<nat>): (c: nat)
    ensures c <= |s|
  {
    if s == [] then 0 else (if EndsChain(s[0], t) then 1 else 0) + CountEnds(s[1..], t)
  }

  lemma {:induction false} CountEndsAppend(a: seq<nat>, b: seq<nat>, t: Option<nat>)
    ensures CountEnds(a + b, t) == CountEnds(a, t) + CountEnds(b, t)
  {
    if a == [] {
      assert a + b == b;
    } else {
      assert (a + b)[1..] == a[1..] + b;
      CountEndsAppend(a[1..], b, t);
    }
  }

  /**
   * `k` draws make up the pool of `count` dice: they hold exactly `count`
   * chain ends and the last of them ends a chain.
   */
  predicate IsPool(draws: seq<nat>, t: Option<nat>, count: nat, k: nat) {
    && k <= |draws|
    && CountEnds(draws[..k], t) == count
    && (if count == 0 then k == 0 else k > 0 && EndsChain(draws[k - 1], t))
  }

  /** How many draws the `count` dice consume, or `None` if `draws` runs out first. */
  function PoolLength(draws: seq<nat>, t: Option<nat>, count: nat): (r: Option<nat>)
    ensures r.None? <==> CountEnds(draws, t) < count
    ensures r.Some? ==> IsPool(draws, t, count, r.value)
    decreases |draws|
  {
    if count == 0 then Some(0)
    else if draws == [] then None
    else
      var ends := if EndsChain(draws[0], t) then 1 else 0;
      match PoolLength(draws[1..], t, count - ends)
      case None => None
      case Some(k) =>
        assert draws[..k + 1] == [draws[0]] + draws[1..][..k];
        CountEndsAppend([draws[0]], draws[1..][..k], t);
        Some(k + 1)
  }

  /** A pool is determined by its count: `PoolLength` finds the only one. */
  lemma PoolLengthUnique(draws: seq<nat>, t: Option<nat>, count: nat, k: nat)
    requires IsPool(draws, t, count, k)
    ensures PoolLength(draws, t, count) == Some(k)
  {
    assert draws == draws[..k] + draws[k..];
    CountEndsAppend(draws[..k], draws[k..], t);
    var other := PoolLength(draws, t, count).value;
    if k < other {
      EndsBetween(draws, t, k, other);
    } else if other < k {
      EndsBetween(draws, t, other, k);
    }
  }

  /** A longer prefix that closes a chain holds more chain ends. */
  lemma EndsBetween(draws: seq<nat>, t: Option<nat>, shorter: nat, longer: nat)
    requires shorter < longer <= |draws| && EndsChain(draws[longer - 1], t)
    ensures CountEnds(draws[..shorter], t) < CountEnds(draws[..longer], t)
  {
    var last := draws[longer - 1];
    var middle := draws[shorter..longer - 1];
    assert draws[..longer] == (draws[..shorter] + middle) + [last];
    assert [last][1..] == [];
    CountEndsAppend(draws[..shorter] + middle, [last], t);
    CountEndsAppend(draws[..shorter], middle, t);
  }

  /** The outcomes drawn for `count` dice, or `None` when the draws run out. */
  function Pool(faces: nat, count: nat, t: Option<nat>, draws: seq<nat>): (r: Option<seq<RollItem>>)
    ensures r.Some? ==> |r.value| >= count
  {
    match PoolLength(draws, t, count)
    case None => None
    case Some(k) => Some(Items(draws[..k], faces))
  }

  function Items(s: seq<nat>, faces: nat): (items: seq<RollItem>)
    ensures |items| == |s| && forall i :: 0 <= i < |s| ==> items[i] == Item(s[i], faces)
  {
    seq(|s|, i requires 0 <= i < |s| => Item(s[i], faces))
  }

  /** Taking one more draw adds its outcome and, if it ends a chain, one chain end. */
  lemma TakeOne(draws: seq<nat>, pos: nat, faces: nat, t: Option<nat>)
    requires pos < |draws|
    ensures Items(draws[..pos + 1], faces) == Items(draws[..pos], faces) + [Item(draws[pos], faces)]
    ensures CountEnds(draws[..pos + 1], t) == CountEnds(draws[..pos], t) + if EndsChain(draws[pos], t) then 1 else 0
  {
    assert draws[..pos + 1] == draws[..pos] + [draws[pos]];
    CountEndsAppend(draws[..pos], [draws[pos]], t);
  }

  /**
   * The `for` loop over the dice with its inner explosion `while` loop.
   * Each iteration consumes one draw per outcome it pushes.
   */
  method DrawPool(faces: nat, count: nat, t: Option<nat>, draws: seq<nat>) returns (r: Option<seq<RollItem>>)
    ensures r == Pool(faces, count, t, draws)
  {
    var rolls: seq<RollItem> := [];
    var pos := 0;
    for i := 0 to count
      invariant pos <= |draws|
      invariant rolls == Items(draws[..pos], faces)
      invariant CountEnds(draws[..pos], t) == i
      invariant if i == 0 then pos == 0 else pos > 0 && EndsChain(draws[pos - 1], t)
    {
      if pos == |draws| {
        assert draws[..pos] == draws;
        return None;
      }
      var value := draws[pos];
      TakeOne(draws, pos, faces, t);
      pos := pos + 1;
      rolls := rolls + [Item(value, faces)];
      if t.Some? {
        var n := t.value;
        while value >= n
          invariant 0 < pos <= |draws| && value == draws[pos - 1]
          invariant rolls == Items(draws[..pos], faces)
          invariant CountEnds(draws[..pos], t) == if value < n then i + 1 else i
          decreases |draws| - pos
        {
          if pos == |draws| {
            assert draws[..pos] == draws;
            return None;
          }
          value := draws[pos];
          TakeOne(draws, pos, faces, t);
          pos := pos + 1;
          rolls := rolls + [Item(value, faces)];
        }
      }
    }
    PoolLengthUnique(draws, t, count, pos);
    r := Some(rolls);
  }

  /** Without a threshold every draw is one die: exactly `count` draws are used. */
  lemma {:induction false} PoolWithoutExplosion(draws: seq<nat>, count: nat)
    ensures PoolLength(draws, None, count) == if count <= |draws| then Some(count) else None
  {
    AllEnd(draws);
    if count <= |draws| {
      AllEnd(draws[..count]);
      PoolLengthUnique(draws, None, count, count);
    }
  }

  lemma {:induction false} AllEnd(s: seq<nat>)
    ensures CountEnds(s, None) == |s|
  {
    if s != [] {
      AllEnd(s[1..]);
    }
  }

  /**
   * Inside the pool a draw at or above the threshold is never the last one:
   * every chain is closed by a draw below the threshold.
   */
  lemma ChainsClosed(draws: seq<nat>, t: Option<nat>, count: nat, k: nat, j: nat)
    requires IsPool(draws, t, count, k) && j < k && !EndsChain(draws[j], t)
    ensures j + 1 < k
  {
  }

  /**
   * Threshold 1, which `explodes_at` accepts, never closes a chain: no
   * finite supply of draws in [1, faces] is enough for even one die.
   */
  lemma {:induction false} ExplodeAtOneNeverEnds(draws: seq<nat>, count: nat)
    requires count >= 1
    requires forall i :: 0 <= i < |draws| ==> draws[i] >= 1
    ensures PoolLength(draws, Some(1), count) == None
  {
    NoEndsAtOne(draws);
  }

  lemma {:induction false} NoEndsAtOne(draws: seq<nat>)
    requires forall i :: 0 <= i < |draws| ==> draws[i] >= 1
    ensures CountEnds(draws, Some(1)) == 0
  {
    if draws != [] {
      NoEndsAtOne(draws[1..]);
    }
  }
}
