/**
 * The notation string `roll` rebuilds from the expression it evaluated
 * (src/lib/lib.rs): count, `d`, faces, the retention suffix and the
 * modifier suffixes in order. Numbers are printed in decimal, so a
 * percentile die reads back as `100`.
 */
module Canonical {
  import opened Decimal
  import opened Dice

  /** An `Explode` at the die's own face count is written as a bare `!`. */
  function ModifierText(m: RollModifier, faces: nat): string {
    match m
    case Add(n) => "+" + NatToString(n)
    case Subtract(n) => "-" + NatToString(n)
    case Multiply(n) => "x" + NatToString(n)
    case Divide(n) => "/" + NatToString(n)
    case Explode(n) => if n != faces then "!" + NatToString(n) else "!"
  }

  function ModifiersText(mods: seq<RollModifier>, faces: nat): string {
    if mods == [] then "" else ModifierText(mods[0], faces) + ModifiersText(mods[1..], faces)
  }

  function RetentionText(r: RollRetention): string {
    match r
    case All => ""
    case Highest(n) => "h" + NatToString(n)
    case Lowest(n) => "l" + NatToString(n)
  }

  function CanonicalText(e: RollExpression): string {
    NatToString(e.count) + "d" + NatToString(e.faces) + RetentionText(e.retention)
      + ModifiersText(e.modifiers, e.faces)
  }
}
