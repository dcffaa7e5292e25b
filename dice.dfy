/**
 * The data model of the evaluation engine (src/lib/lib.rs): retention
 * policies, modifiers, roll expressions, die outcomes and results, plus the
 * two per-die decisions `roll` makes before any die is drawn or classified:
 * the explosion threshold and the quality of a value.
 */
module Dice {
  import opened Wrappers

  datatype RollRetention = Highest(n: nat) | Lowest(n: nat) | All

  datatype RollQuality = Good | Regular | Bad

  /** One die outcome; `retained` is cleared only by retention filtering. */
  datatype RollItem = RollItem(value: nat, retained: bool, quality: RollQuality)

  datatype RollResult = RollResult(input: string, total: int, rolls: seq<RollItem>)

  datatype RollModifier =
    | Add(n: nat)
    | Subtract(n: nat)
    | Multiply(n: nat)
    | Divide(n: nat)
    | Explode(n: nat)

  datatype RollExpression = RollExpression(
    faces: nat,
    count: nat,
    retention: RollRetention,
    modifiers: seq<RollModifier>)

  /**
   * The conditions under which `roll` panics in the source, as values:
   * an explosion threshold outside [1, faces], a die drawn from the empty
   * range [1, 0], a retention count above the dice count, and a division by
   * zero. `DrawsExhausted` stands for the random source running dry, which
   * the source's generator never does.
   */
  datatype RollError =
    | InvalidModifier(threshold: nat)
    | EmptyRange
    | InvalidRetention(n: nat)
    | DivideByZero
    | DrawsExhausted

  predicate NoExplode(mods: seq<RollModifier>) {
    forall j :: 0 <= j < |mods| ==> !mods[j].Explode?
  }

  /**
   * `explodes_at`: the first `Explode` modifier decides. Its threshold is
   * returned when it lies in [1, faces] and rejected otherwise; modifiers
   * after it are not looked at.
   */
  function ExplodesAt(faces: nat, mods: seq<RollModifier>): (r: Result<Option<nat>, RollError>)
    ensures r.Success? && r.value.Some? ==> 1 <= r.value.value <= faces
    ensures r.Failure? ==> r.error.InvalidModifier? && (r.error.threshold < 1 || r.error.threshold > faces)
  {
    if mods == [] then Success(None)
    else match mods[0]
      case Explode(n) => if n <= faces && n >= 1 then Success(Some(n)) else Failure(InvalidModifier(n))
      case _ => ExplodesAt(faces, mods[1..])
  }

  /** `explodes_at` characterised by the position of the first `Explode`. */
  lemma {:induction false} ExplodesAtFirst(faces: nat, mods: seq<RollModifier>, i: nat)
    requires i < |mods| && mods[i].Explode? && NoExplode(mods[..i])
    ensures var n := mods[i].n;
      ExplodesAt(faces, mods) == if 1 <= n <= faces then Success(Some(n)) else Failure(InvalidModifier(n))
  {
    if i > 0 {
      assert !mods[0].Explode? by { assert mods[..i][0] == mods[0]; }
      assert mods[1..][..i - 1] == mods[..i][1..];
      ExplodesAtFirst(faces, mods[1..], i - 1);
    }
  }

  /** Without an `Explode` modifier there is no threshold, and no error. */
  lemma {:induction false} ExplodesAtNone(faces: nat, mods: seq<RollModifier>)
    ensures ExplodesAt(faces, mods) == Success(None) <==> NoExplode(mods)
  {
    if mods != [] {
      ExplodesAtNone(faces, mods[1..]);
      if !mods[0].Explode? {
        assert NoExplode(mods) <==> NoExplode(mods[1..]) by {
          if NoExplode(mods[1..]) {
            forall j | 0 <= j < |mods| ensures !mods[j].Explode? {
              if j > 0 { assert mods[j] == mods[1..][j - 1]; }
            }
          }
        }
      }
    }
  }

  /** The quality a fresh outcome gets: `faces` is checked before 1. */
  function Quality(value: nat, faces: nat): (q: RollQuality)
    ensures q == Good <==> value == faces
    ensures q == Bad <==> value == 1 && value != faces
    ensures q == Regular <==> value != faces && value != 1
  {
    if value == faces then Good else if value == 1 then Bad else Regular
  }

  /** The outcome pushed for a drawn value: retained, classified by `Quality`. */
  function Item(value: nat, faces: nat): RollItem {
    RollItem(value, true, Quality(value, faces))
  }

  function Values(items: seq<RollItem>): (vs: seq<nat>)
    ensures |vs| == |items| && forall i :: 0 <= i < |items| ==> vs[i] == items[i].value
  {
    seq(|items|, i requires 0 <= i < |items| => items[i].value)
  }
}
