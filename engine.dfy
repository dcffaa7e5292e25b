/**
 * `Roll::roll` for `RollExpression` (src/lib/lib.rs): resolve the explosion
 * threshold, draw the pool, apply retention, total the retained values, fold
 * the modifiers and rebuild the notation. The random generator is replaced
 * by `draws`, the values it would return, consumed front to back.
 */
module Engine {
  import opened Wrappers
  import opened Sequences
  import opened Dice
  import opened Explosion
  import opened Retention
  import opened Arithmetic
  import opened Canonical
  import opened Decimal
  import opened Standard

  /** What `roll` returns for these draws, or the error its first panic stands for. */
  function RollSpec(e: RollExpression, draws: seq<nat>): Result<RollResult, RollError> {
    match ExplodesAt(e.faces, e.modifiers)
    case Failure(err) => Failure(err)
    case Success(t) =>
      if e.faces == 0 && e.count > 0 then Failure(EmptyRange)
      else match Pool(e.faces, e.count, t, draws)
        case None => Failure(DrawsExhausted)
        case Some(rolls) =>
          match Retain(rolls, e.retention, e.count)
          case Failure(err) => Failure(err)
          case Success(kept) =>
            match Fold(RetainedSum(kept), e.modifiers)
            case Failure(err) => Failure(err)
            case Success(total) => Success(RollResult(CanonicalText(e), total, kept))
  }

  method Roll(e: RollExpression, draws: seq<nat>) returns (r: Result<RollResult, RollError>)
    ensures r == RollSpec(e, draws)
  {
    var threshold := ExplodesAt(e.faces, e.modifiers);
    if threshold.Failure? {
      return Failure(threshold.error);
    }
    if e.faces == 0 && e.count > 0 {
      return Failure(EmptyRange);
    }
    var pool := DrawPool(e.faces, e.count, threshold.value, draws);
    if pool.None? {
      return Failure(DrawsExhausted);
    }
    var kept := ApplyRetention(pool.value, e.retention, e.count);
    if kept.Failure? {
      return Failure(kept.error);
    }
    var sum := SumRetained(kept.value);
    var total := ApplyModifiers(sum, e.modifiers);
    if total.Failure? {
      return Failure(total.error);
    }
    r := Success(RollResult(CanonicalText(e), total.value, kept.value));
  }

  /**
   * `roll` completes exactly when the threshold is valid, a die can be drawn
   * (or none is asked for), the draws last, the retention count is at most
   * the dice count and no modifier divides by zero.
   */
  lemma RollSucceeds(e: RollExpression, draws: seq<nat>)
    ensures RollSpec(e, draws).Success? <==>
      && ExplodesAt(e.faces, e.modifiers).Success?
      && (e.faces > 0 || e.count == 0)
      && CountEnds(draws, ExplodesAt(e.faces, e.modifiers).value) >= e.count
      && (e.retention.All? || e.retention.n <= e.count)
      && !HasDivideByZero(e.modifiers)
  {
    var t := ExplodesAt(e.faces, e.modifiers);
    if t.Success? && (e.faces > 0 || e.count == 0) {
      var pool := Pool(e.faces, e.count, t.value, draws);
      if pool.Some? {
        var kept := Retain(pool.value, e.retention, e.count);
        if kept.Success? {
          FoldFails(RetainedSum(kept.value), e.modifiers);
        }
      }
    }
  }

  /** The pool of a successful roll, as the drawing loop builds it. */
  lemma RollPool(e: RollExpression, draws: seq<nat>)
    requires RollSpec(e, draws).Success?
    ensures var r := RollSpec(e, draws).value;
      var t := ExplodesAt(e.faces, e.modifiers).value;
      && r.input == CanonicalText(e)
      && IsPool(draws, t, e.count, |r.rolls|)
      && Values(r.rolls) == draws[..|r.rolls|]
      && (forall i :: 0 <= i < |r.rolls| ==> r.rolls[i].quality == Quality(r.rolls[i].value, e.faces))
      && |r.rolls| >= e.count
      && (NoExplode(e.modifiers) ==> |r.rolls| == e.count)
  {
    var t := ExplodesAt(e.faces, e.modifiers).value;
    var k := PoolLength(draws, t, e.count).value;
    var pool := Items(draws[..k], e.faces);
    RetainOnlyClears(pool, e.retention, e.count);
    if NoExplode(e.modifiers) {
      ExplodesAtNone(e.faces, e.modifiers);
      PoolWithoutExplosion(draws, e.count);
    }
  }

  /** With every draw a face of the die, every outcome is one too. */
  lemma RollValuesInRange(e: RollExpression, draws: seq<nat>)
    requires RollSpec(e, draws).Success?
    requires forall i :: 0 <= i < |draws| ==> 1 <= draws[i] <= e.faces
    ensures var rolls := RollSpec(e, draws).value.rolls;
      forall i :: 0 <= i < |rolls| ==> 1 <= rolls[i].value <= e.faces
  {
    RollPool(e, draws);
    var rolls := RollSpec(e, draws).value.rolls;
    forall i | 0 <= i < |rolls| ensures 1 <= rolls[i].value <= e.faces {
      assert rolls[i].value == Values(rolls)[i] == draws[i];
    }
  }

  /** The pool a successful roll retains from: every die kept, at least `count` of them. */
  lemma RolledPool(e: RollExpression, draws: seq<nat>) returns (pool: seq<RollItem>)
    requires RollSpec(e, draws).Success?
    ensures AllRetained(pool) && e.count <= |pool|
    ensures Retain(pool, e.retention, e.count) == Success(RollSpec(e, draws).value.rolls)
  {
    var t := ExplodesAt(e.faces, e.modifiers).value;
    var k := PoolLength(draws, t, e.count).value;
    pool := Items(draws[..k], e.faces);
  }

  /**
   * Which outcomes count: all of them under `All`; under `Highest(n)` and
   * `Lowest(n)`, exactly `n` of them, holding the `n` largest or smallest
   * values of the pool.
   */
  lemma RollRetention(e: RollExpression, draws: seq<nat>)
    requires RollSpec(e, draws).Success?
    ensures var rolls := RollSpec(e, draws).value.rolls;
      && (e.retention.All? ==> AllRetained(rolls))
      && (e.retention.Highest? ==> HoldsHighest(rolls, e.retention.n))
      && (e.retention.Lowest? ==> HoldsLowest(rolls, e.retention.n))
  {
    var pool := RolledPool(e, draws);
    var rolls := RollSpec(e, draws).value.rolls;
    match e.retention
    case All =>
    case Highest(n) =>
      KeptHighest(pool, n, e.count, rolls);
    case Lowest(n) =>
      KeptLowest(pool, n, e.count, rolls);
  }

  lemma KeptHighest(pool: seq<RollItem>, n: nat, count: nat, rolls: seq<RollItem>)
    requires AllRetained(pool) && count <= |pool|
    requires Retain(pool, Highest(n), count) == Success(rolls)
    ensures HoldsHighest(rolls, n)
  {
    var sorted := Sort(Values(pool));
    var k := |pool| - n;
    assert rolls == MarkDropped(pool, sorted[..k]);
    KeepRest(pool, sorted, k);
    ValuesUnchanged(pool, sorted[..k]);
    assert Sort(Values(rolls)) == sorted;
  }

  lemma KeptLowest(pool: seq<RollItem>, n: nat, count: nat, rolls: seq<RollItem>)
    requires AllRetained(pool) && count <= |pool|
    requires Retain(pool, Lowest(n), count) == Success(rolls)
    ensures HoldsLowest(rolls, n)
  {
    var reversed := Reverse(Sort(Values(pool)));
    var k := |pool| - n;
    assert rolls == MarkDropped(pool, reversed[..k]);
    KeepRest(pool, reversed, k);
    ValuesUnchanged(pool, reversed[..k]);
    assert Reverse(Sort(Values(rolls))) == reversed;
  }

  /** The total is the modifiers folded over the sum of the retained values. */
  lemma RollTotal(e: RollExpression, draws: seq<nat>)
    requires RollSpec(e, draws).Success?
    ensures var r := RollSpec(e, draws).value;
      && Fold(Sum(RetainedValues(r.rolls)), e.modifiers) == Success(r.total)
      && (e.retention.All? ==> Fold(Sum(Values(r.rolls)), e.modifiers) == Success(r.total))
  {
    var r := RollSpec(e, draws).value;
    RetainedSumIsSum(r.rolls);
    if e.retention.All? {
      RollRetention(e, draws);
      RetainedSumAll(r.rolls);
    }
  }

  /** `1d20` with the draw 15: one regular outcome, total 15. */
  lemma RollOneD20()
    ensures RollSpec(RollExpression(20, 1, All, []), [15])
      == Success(RollResult("1d20", 15, [RollItem(15, true, Regular)]))
  {
    var e := RollExpression(20, 1, All, []);
    var rolls := [RollItem(15, true, Regular)];
    assert NatToString(20) == "20" by {
      assert NatToString(2) == "2";
    }
    assert CanonicalText(e) == "1d20";
    assert PoolLength([15], None, 1) == Some(1);
    assert [15][..1] == [15];
    assert Items([15], 20) == rolls;
    assert RetainedSum(rolls) == 15 by {
      assert rolls[1..] == [];
    }
  }

  /** `3d6h2` with the draws 2, 5, 4: the 2 is dropped, total 9. */
  lemma RollThreeD6KeepTwo()
    ensures RollSpec(RollExpression(6, 3, Highest(2), []), [2, 5, 4])
      == Success(RollResult("3d6h2", 9,
           [RollItem(2, false, Regular), RollItem(5, true, Regular), RollItem(4, true, Regular)]))
  {
    ThreeD6Text();
    ThreeD6Pool();
    ThreeD6Retain();
    ThreeD6Sum();
  }

  lemma ThreeD6Text()
    ensures CanonicalText(RollExpression(6, 3, Highest(2), [])) == "3d6h2"
  {
  }

  lemma ThreeD6Sum()
    ensures RetainedSum([RollItem(2, false, Regular), RollItem(5, true, Regular), RollItem(4, true, Regular)]) == 9
  {
    var kept := [RollItem(2, false, Regular), RollItem(5, true, Regular), RollItem(4, true, Regular)];
    assert kept[1..][1..][1..] == [];
  }

  lemma ThreeD6Pool()
    ensures Pool(6, 3, None, [2, 5, 4])
      == Some([RollItem(2, true, Regular), RollItem(5, true, Regular), RollItem(4, true, Regular)])
  {
    var draws := [2, 5, 4];
    var pool := [RollItem(2, true, Regular), RollItem(5, true, Regular), RollItem(4, true, Regular)];
    PoolWithoutExplosion(draws, 3);
    assert draws[..3] == draws;
    assert Item(2, 6) == pool[0] && Item(5, 6) == pool[1] && Item(4, 6) == pool[2];
    assert Items(draws, 6) == pool;
  }

  lemma ThreeD6Retain()
    ensures Retain([RollItem(2, true, Regular), RollItem(5, true, Regular), RollItem(4, true, Regular)], Highest(2), 3)
      == Success([RollItem(2, false, Regular), RollItem(5, true, Regular), RollItem(4, true, Regular)])
  {
    var pool := [RollItem(2, true, Regular), RollItem(5, true, Regular), RollItem(4, true, Regular)];
    assert Values(pool) == [2, 5, 4];
    ThreeD6DropList();
    ThreeD6Mark();
  }

  lemma ThreeD6DropList()
    ensures DropList([2, 5, 4], 2, true) == [2]
  {
    SortUnique([2, 5, 4], [2, 4, 5]);
  }

  lemma ThreeD6Mark()
    ensures MarkDropped([RollItem(2, true, Regular), RollItem(5, true, Regular), RollItem(4, true, Regular)], [2])
      == [RollItem(2, false, Regular), RollItem(5, true, Regular), RollItem(4, true, Regular)]
  {
    var pool := [RollItem(2, true, Regular), RollItem(5, true, Regular), RollItem(4, true, Regular)];
    assert FirstIndex([2], 2) == Some(0);
    assert Consume([2], 2) == [];
    MarkDroppedHead(pool, [2]);
    MarkDroppedNothing(pool[1..]);
    var r := MarkDropped(pool, [2]);
    assert r == [r[0]] + r[1..];
  }

  /** `2d6!6` with the draws 6, 3, 2: the 6 explodes into the 3, total 11, shown as `2d6!`. */
  lemma RollTwoD6Exploding()
    ensures RollSpec(RollExpression(6, 2, All, [Explode(6)]), [6, 3, 2])
      == Success(RollResult("2d6!", 11,
           [RollItem(6, true, Good), RollItem(3, true, Regular), RollItem(2, true, Regular)]))
  {
    var e := RollExpression(6, 2, All, [Explode(6)]);
    var draws := [6, 3, 2];
    var rolls := [RollItem(6, true, Good), RollItem(3, true, Regular), RollItem(2, true, Regular)];
    assert ExplodesAt(6, [Explode(6)]) == Success(Some(6));
    assert ModifiersText([Explode(6)], 6) == "!" by {
      assert [Explode(6)][1..] == [];
    }
    assert CanonicalText(e) == "2d6!";
    assert IsPool(draws, Some(6), 2, 3) by {
      assert draws[..3] == draws;
      assert draws[1..] == [3, 2] && [3, 2][1..] == [2] && [2][1..] == [];
    }
    PoolLengthUnique(draws, Some(6), 2, 3);
    assert draws[..3] == draws;
    assert Items(draws, 6) == rolls;
    assert RetainedSum(rolls) == 11 by {
      assert rolls[1..][1..][1..] == [];
    }
    assert Fold(11, [Explode(6)]) == Success(11) by {
      assert [Explode(6)][1..] == [];
    }
  }

  /** `d%` with the draw 57: the builder reads `%` as a hundred-sided die, shown as `1d100`, total 57. */
  lemma RollPercentile()
    ensures var p := RollExpressionPair([Standard.Dice([DiceType("%")])]);
      && WellFormed(p)
      && FromPair(p) == RollExpression(100, 1, All, [])
      && RollSpec(FromPair(p), [57]) == Success(RollResult("1d100", 57, [RollItem(57, true, Regular)]))
  {
    var p := RollExpressionPair([Standard.Dice([DiceType("%")])]);
    assert FromPair(p) == RollExpression(100, 1, All, []);
    var e := RollExpression(100, 1, All, []);
    var rolls := [RollItem(57, true, Regular)];
    assert NatToString(100) == "100" by {
      assert NatToString(1) == "1";
      assert NatToString(10) == "10";
    }
    assert CanonicalText(e) == "1d100";
    assert PoolLength([57], None, 1) == Some(1);
    assert [57][..1] == [57];
    assert Items([57], 100) == rolls;
    assert RetainedSum(rolls) == 57 by {
      assert rolls[1..] == [];
    }
  }
}
