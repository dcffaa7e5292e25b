/**
 * The total of `roll` (src/lib/lib.rs): the sum of the retained values,
 * then the arithmetic modifiers applied to it left to right. `isize`
 * arithmetic is modelled on unbounded integers (see README, "Left out").
 */
module Arithmetic {
  import opened Wrappers
  import opened Sequences
  import opened Dice
  import opened Retention

  /** The `fold` over the outcomes: retained values add up, dropped ones count nothing. */
  function RetainedSum(items: seq<RollItem>): int {
    if items == [] then 0
    else (if items[0].retained then items[0].value else 0) + RetainedSum(items[1..])
  }

  method SumRetained(rolls: seq<RollItem>) returns (total: int)
    ensures total == RetainedSum(rolls)
  {
    total := 0;
    for i := 0 to |rolls|
      invariant total + RetainedSum(rolls[i..]) == RetainedSum(rolls)
    {
      assert rolls[i..][1..] == rolls[i + 1..];
      if rolls[i].retained {
        total := total + rolls[i].value;
      }
    }
    assert rolls[|rolls|..] == [];
  }

  /** The total is the sum of exactly the retained values. */
  lemma {:induction false} RetainedSumIsSum(items: seq<RollItem>)
    ensures RetainedSum(items) == Sum(RetainedValues(items))
  {
    if items != [] {
      RetainedSumIsSum(items[1..]);
      SumAppend(if items[0].retained then [items[0].value] else [], RetainedValues(items[1..]));
    }
  }

  /** With nothing dropped, the total is the sum of the whole pool. */
  lemma {:induction false} RetainedSumAll(items: seq<RollItem>)
    requires AllRetained(items)
    ensures RetainedSum(items) == Sum(Values(items))
  {
    if items != [] {
      ValuesCons(items);
      SumCons(items[0].value, Values(items[1..]));
      assert AllRetained(items[1..]) by {
        forall i | 0 <= i < |items| - 1 ensures items[1..][i].retained {
          assert items[1..][i] == items[i + 1];
        }
      }
      RetainedSumAll(items[1..]);
    }
  }

  /**
   * After the retention walk, the total is the sum of the whole pool less the
   * sum of the drop list.
   */
  lemma {:induction false} RetainedSumAfterDrop(items: seq<RollItem>, removals: seq<nat>)
    requires AllRetained(items)
    requires multiset(removals) <= multiset(Values(items))
    ensures RetainedSum(MarkDropped(items, removals)) == Sum(Values(items)) - Sum(removals)
  {
    if items == [] {
      assert multiset(removals) == multiset{};
    } else {
      var v0, tail := items[0].value, items[1..];
      var rest := Consume(removals, v0);
      var r := MarkDropped(items, removals);
      MarkDroppedHead(items, removals);
      ValuesCons(items);
      assert AllRetained(tail) by {
        forall i | 0 <= i < |tail| ensures tail[i].retained {
          assert tail[i] == items[i + 1];
        }
      }
      ConsumeWithin(removals, v0, Values(tail));
      RetainedSumAfterDrop(tail, rest);
      assert RetainedSum(r) == (if r[0].retained then v0 else 0) + RetainedSum(r[1..]);
      SumCons(v0, Values(tail));
      match FirstIndex(removals, v0)
      case Some(idx) =>
        SumRemoveAt(removals, idx);
      case None =>
    }
  }

  lemma SumCons(v: nat, s: seq<nat>)
    ensures Sum([v] + s) == v + Sum(s)
  {
    assert ([v] + s)[1..] == s;
  }

  /** Rust's `/` on signed integers: the quotient truncated toward zero. */
  function TruncDiv(a: int, b: int): (q: int)
    requires b != 0
    ensures var r := a - q * b;
      && (a >= 0 ==> 0 <= r < Abs(b))
      && (a < 0 ==> -Abs(b) < r <= 0)
  {
    var m: int := Abs(a) / Abs(b);
    TruncDivRemainder(a, b, m);
    var q: int := if (a >= 0) == (b > 0) then m else -m;
    q
  }

  lemma TruncDivRemainder(a: int, b: int, m: int)
    requires b != 0 && m == Abs(a) / Abs(b)
    ensures var q: int := if (a >= 0) == (b > 0) then m else -m;
      var r := a - q * b;
      && (a >= 0 ==> 0 <= r < Abs(b))
      && (a < 0 ==> -Abs(b) < r <= 0)
  {
    var k: int := Abs(a) % Abs(b);
    DivParts(Abs(a), Abs(b), m, k);
    if b > 0 {
      SignedProduct(m, b);
    } else {
      SignedProduct(m, -b);
    }
  }

  /** Euclid on non-negative operands. */
  lemma DivParts(x: int, y: int, m: int, k: int)
    requires x >= 0 && y > 0 && m == x / y && k == x % y
    ensures x == m * y + k && 0 <= k < y
  {
  }

  lemma SignedProduct(m: int, y: int)
    ensures (-m) * y == -(m * y) && m * (-y) == -(m * y) && (-m) * (-y) == m * y
  {
  }

  function Abs(x: int): (r: int)
    ensures r >= 0
  {
    if x < 0 then -x else x
  }

  /** One step of the modifier loop; `Explode` was consumed while drawing. */
  function Step(total: int, m: RollModifier): Result<int, RollError> {
    match m
    case Add(n) => Success(total + n)
    case Subtract(n) => Success(total - n)
    case Multiply(n) => Success(total * n)
    case Divide(n) => if n == 0 then Failure(DivideByZero) else Success(TruncDiv(total, n))
    case Explode(_) => Success(total)
  }

  /** The modifiers applied to `total` in declaration order. */
  function Fold(total: int, mods: seq<RollModifier>): Result<int, RollError>
    decreases mods
  {
    if mods == [] then Success(total)
    else match Step(total, mods[0])
      case Failure(e) => Failure(e)
      case Success(t) => Fold(t, mods[1..])
  }

  /** The `for m in self.modifiers` loop. */
  method ApplyModifiers(start: int, mods: seq<RollModifier>) returns (r: Result<int, RollError>)
    ensures r == Fold(start, mods)
  {
    var total := start;
    for i := 0 to |mods|
      invariant Fold(start, mods) == Fold(total, mods[i..])
    {
      assert mods[i..][1..] == mods[i + 1..];
      match mods[i]
      case Add(n) => total := total + n;
      case Subtract(n) => total := total - n;
      case Multiply(n) => total := total * n;
      case Divide(n) =>
        if n == 0 {
          return Failure(DivideByZero);
        }
        total := TruncDiv(total, n);
      case Explode(_) =>
    }
    assert mods[|mods|..] == [];
    r := Success(total);
  }

  predicate HasDivideByZero(mods: seq<RollModifier>) {
    exists i :: 0 <= i < |mods| && mods[i] == Divide(0)
  }

  /** The fold fails exactly when some modifier divides by zero, and only with that error. */
  lemma {:induction false} FoldFails(total: int, mods: seq<RollModifier>)
    ensures Fold(total, mods).Failure? <==> HasDivideByZero(mods)
    ensures Fold(total, mods).Failure? ==> Fold(total, mods).error == DivideByZero
    decreases mods
  {
    if mods != [] {
      match Step(total, mods[0])
      case Failure(_) =>
        assert mods[0] == Divide(0);
      case Success(t) =>
        FoldFails(t, mods[1..]);
        if HasDivideByZero(mods) {
          var i :| 0 <= i < |mods| && mods[i] == Divide(0);
          assert i > 0 && mods[1..][i - 1] == Divide(0);
        }
        if HasDivideByZero(mods[1..]) {
          var i :| 0 <= i < |mods| - 1 && mods[1..][i] == Divide(0);
          assert mods[i + 1] == Divide(0);
        }
    }
  }

  /** Modifiers are applied left to right: folding `a + b` folds `a`, then `b`. */
  lemma {:induction false} FoldAppend(total: int, a: seq<RollModifier>, b: seq<RollModifier>)
    ensures Fold(total, a + b) ==
      match Fold(total, a)
      case Failure(e) => Failure(e)
      case Success(t) => Fold(t, b)
    decreases a
  {
    if a == [] {
      assert a + b == b;
    } else {
      assert (a + b)[0] == a[0] && (a + b)[1..] == a[1..] + b;
      match Step(total, a[0])
      case Failure(_) =>
      case Success(t) => FoldAppend(t, a[1..], b);
    }
  }

  /** The modifiers without their `Explode`s. */
  function WithoutExplode(mods: seq<RollModifier>): seq<RollModifier> {
    if mods == [] then []
    else (if mods[0].Explode? then [] else [mods[0]]) + WithoutExplode(mods[1..])
  }

  /** `Explode` modifiers have no effect on the total, wherever they stand. */
  lemma {:induction false} FoldIgnoresExplode(total: int, mods: seq<RollModifier>)
    ensures Fold(total, mods) == Fold(total, WithoutExplode(mods))
    decreases mods
  {
    if mods != [] {
      var head := if mods[0].Explode? then [] else [mods[0]];
      FoldAppend(total, head, WithoutExplode(mods[1..]));
      match Step(total, mods[0])
      case Failure(_) =>
      case Success(t) =>
        FoldIgnoresExplode(t, mods[1..]);
        if !mods[0].Explode? {
          assert head[1..] == [];
        }
    }
  }

  /** With only `Add` and `Subtract`, the total moves by their signed sum. */
  function Offset(mods: seq<RollModifier>): int
    requires forall i :: 0 <= i < |mods| ==> mods[i].Add? || mods[i].Subtract?
  {
    if mods == [] then 0
    else (if mods[0].Add? then mods[0].n as int else -(mods[0].n as int)) + Offset(mods[1..])
  }

  lemma {:induction false} FoldAdditive(total: int, mods: seq<RollModifier>)
    requires forall i :: 0 <= i < |mods| ==> mods[i].Add? || mods[i].Subtract?
    ensures Fold(total, mods) == Success(total + Offset(mods))
    decreases mods
  {
    if mods != [] {
      FoldAdditive(Step(total, mods[0]).value, mods[1..]);
    }
  }
}
