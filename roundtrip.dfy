/**
 * The canonical notation `roll` prints (src/lib/lib.rs), read back by the
 * builder of src/lib/standard.rs: the parse tree of an expression's
 * canonical text, and the proof that building from it gives the expression
 * back.
 */
module RoundTrip {
  import opened Decimal
  import opened Dice
  import opened Canonical
  import opened Standard

  /** The text a node spans, as the grammar reads it. */
  function PartText(part: DicePart): string {
    match part
    case DiceCount(digits) => digits
    case DiceType(text) => "d" + text
  }

  function PartsText(parts: seq<DicePart>): string {
    if parts == [] then "" else PartText(parts[0]) + PartsText(parts[1..])
  }

  function OperatorText(op: ModifierRule): string {
    match op
    case ModifierAdd => "+"
    case ModifierSubtract => "-"
    case ModifierMultiply => "x"
    case ModifierDivide => "/"
    case ModifierExplode => "!"
  }

  function ChildText(c: ExpressionPair): string {
    match c
    case Dice(parts) => PartsText(parts)
    case Retention(kind, digits) => (if kind == RetentionHighest then "h" else "l") + digits
    case Modifier(op, operand) => OperatorText(op) + operand
  }

  function ExpressionText(children: seq<ExpressionPair>): string {
    if children == [] then "" else ChildText(children[0]) + ExpressionText(children[1..])
  }

  /** The node the grammar builds for a canonical notation. */
  function RetentionPairs(r: RollRetention): seq<ExpressionPair> {
    match r
    case All => []
    case Highest(n) => [Retention(RetentionHighest, NatToString(n))]
    case Lowest(n) => [Retention(RetentionLowest, NatToString(n))]
  }

  function ModifierPair(m: RollModifier, faces: nat): ExpressionPair {
    match m
    case Add(n) => Modifier(ModifierAdd, NatToString(n))
    case Subtract(n) => Modifier(ModifierSubtract, NatToString(n))
    case Multiply(n) => Modifier(ModifierMultiply, NatToString(n))
    case Divide(n) => Modifier(ModifierDivide, NatToString(n))
    case Explode(n) => Modifier(ModifierExplode, if n != faces then NatToString(n) else "")
  }

  function ModifierPairs(mods: seq<RollModifier>, faces: nat): seq<ExpressionPair> {
    if mods == [] then [] else [ModifierPair(mods[0], faces)] + ModifierPairs(mods[1..], faces)
  }

  function NotationTree(e: RollExpression): RollExpressionPair {
    RollExpressionPair(
      [Dice([DiceCount(NatToString(e.count)), DiceType(NatToString(e.faces))])]
      + RetentionPairs(e.retention) + ModifierPairs(e.modifiers, e.faces))
  }

  lemma {:induction false} ExpressionTextAppend(a: seq<ExpressionPair>, b: seq<ExpressionPair>)
    ensures ExpressionText(a + b) == ExpressionText(a) + ExpressionText(b)
  {
    if a == [] {
      assert a + b == b;
    } else {
      assert (a + b)[1..] == a[1..] + b;
      ExpressionTextAppend(a[1..], b);
    }
  }

  lemma {:induction false} ModifierPairsText(mods: seq<RollModifier>, faces: nat)
    ensures ExpressionText(ModifierPairs(mods, faces)) == ModifiersText(mods, faces)
  {
    if mods != [] {
      var pairs := ModifierPairs(mods, faces);
      assert pairs[1..] == ModifierPairs(mods[1..], faces);
      ModifierPairsText(mods[1..], faces);
      ModifierPairText(mods[0], faces);
    }
  }

  lemma ModifierPairText(m: RollModifier, faces: nat)
    ensures ChildText(ModifierPair(m, faces)) == ModifierText(m, faces)
  {
    if m.Explode? && m.n == faces {
      assert "!" + "" == "!";
    }
  }

  /** The node for an expression spans exactly the notation `roll` prints for it. */
  lemma NotationTreeText(e: RollExpression)
    ensures ExpressionText(NotationTree(e).children) == CanonicalText(e)
  {
    var dice := [Dice([DiceCount(NatToString(e.count)), DiceType(NatToString(e.faces))])];
    var ret := RetentionPairs(e.retention);
    var mods := ModifierPairs(e.modifiers, e.faces);
    ExpressionTextAppend(dice + ret, mods);
    ExpressionTextAppend(dice, ret);
    DiceNodeText(NatToString(e.count), NatToString(e.faces));
    RetentionPairsText(e.retention);
    ModifierPairsText(e.modifiers, e.faces);
  }

  lemma DiceNodeText(count: string, faces: string)
    ensures ExpressionText([Dice([DiceCount(count), DiceType(faces)])]) == count + "d" + faces
  {
    var dice := [Dice([DiceCount(count), DiceType(faces)])];
    var parts := dice[0].parts;
    assert parts[1..][1..] == [];
    assert PartsText(parts[1..]) == "d" + faces;
    assert dice[1..] == [];
  }

  lemma RetentionPairsText(r: RollRetention)
    ensures ExpressionText(RetentionPairs(r)) == RetentionText(r)
  {
    assert r != All ==> RetentionPairs(r)[1..] == [];
  }

  lemma {:induction false} ModifiersOfAppend(a: seq<ExpressionPair>, b: seq<ExpressionPair>, faces: nat)
    requires forall i :: 0 <= i < |a| ==> ModifierParses(a[i])
    requires forall i :: 0 <= i < |b| ==> ModifierParses(b[i])
    ensures forall i :: 0 <= i < |a + b| ==> ModifierParses((a + b)[i])
    ensures ModifiersOf(a + b, faces) == ModifiersOf(a, faces) + ModifiersOf(b, faces)
  {
    assert forall i :: 0 <= i < |a + b| ==> ModifierParses((a + b)[i]) by {
      forall i | 0 <= i < |a + b| ensures ModifierParses((a + b)[i]) {
        if i < |a| {
          assert (a + b)[i] == a[i];
        } else {
          assert (a + b)[i] == b[i - |a|];
        }
      }
    }
    if a == [] {
      assert a + b == b;
    } else {
      assert (a + b)[1..] == a[1..] + b;
      assert forall i :: 0 <= i < |a| - 1 ==> ModifierParses(a[1..][i]) by {
        forall i | 0 <= i < |a| - 1 ensures ModifierParses(a[1..][i]) {
          assert a[1..][i] == a[i + 1];
        }
      }
      ModifiersOfAppend(a[1..], b, faces);
      ModifiersOfCons(a + b, faces);
      ModifiersOfCons(a, faces);
    }
  }

  /** An operand printed as a numeral reads back as that number. */
  lemma NumeralOperand(op: ModifierRule, n: nat, faces: nat)
    ensures var c := Modifier(op, NatToString(n));
      && ModifierParses(c)
      && ModifierOf(c, faces).n == n
  {
    ParseTrimmedNatToString(n);
  }

  /** A modifier's node reads back as that modifier, a bare `!` included. */
  lemma ModifierPairRoundTrip(m: RollModifier, faces: nat)
    ensures && ModifierPair(m, faces).Modifier? && ModifierParses(ModifierPair(m, faces))
            && ModifierOf(ModifierPair(m, faces), faces) == m
  {
    if m.Explode? && m.n == faces {
      ParseTrimmedEmpty();
    } else {
      NumeralOperand(ModifierPair(m, faces).op, m.n, faces);
    }
  }

  lemma {:induction false} ModifierPairsRoundTrip(mods: seq<RollModifier>, faces: nat)
    ensures forall i :: 0 <= i < |ModifierPairs(mods, faces)| ==> ModifierPairs(mods, faces)[i].Modifier?
    ensures && (forall i :: 0 <= i < |ModifierPairs(mods, faces)| ==> ModifierParses(ModifierPairs(mods, faces)[i]))
            && ModifiersOf(ModifierPairs(mods, faces), faces) == mods
  {
    if mods != [] {
      var pairs := ModifierPairs(mods, faces);
      assert pairs[1..] == ModifierPairs(mods[1..], faces);
      ModifierPairsRoundTrip(mods[1..], faces);
      ModifierPairRoundTrip(mods[0], faces);
      forall i | 0 <= i < |pairs| ensures pairs[i].Modifier? && ModifierParses(pairs[i]) {
        if i > 0 {
          assert pairs[i] == pairs[1..][i - 1];
        }
      }
      ModifiersOfCons(pairs, faces);
    }
  }

  /** The retention of the node: the `Dice` child is skipped, then the retention child, if any, is first. */
  lemma NotationRetention(e: RollExpression)
    ensures && RetentionParses(NotationTree(e).children)
            && RetentionOf(NotationTree(e).children) == e.retention
  {
    var ret := RetentionPairs(e.retention);
    var mods := ModifierPairs(e.modifiers, e.faces);
    var children := NotationTree(e).children;
    var rest := ret + mods;
    assert children[1..] == rest && children[0].Dice?;
    match e.retention
    case All =>
      assert rest == mods;
      ModifierPairsRoundTrip(e.modifiers, e.faces);
      RetentionParsesWithout(mods);
      RetentionAbsent(mods);
    case Highest(n) =>
      ParseNatToString(n);
      assert rest[0] == Retention(RetentionHighest, NatToString(n));
    case Lowest(n) =>
      ParseNatToString(n);
      assert rest[0] == Retention(RetentionLowest, NatToString(n));
  }

  /** The modifiers of the node, after the `Dice` and retention children. */
  lemma NotationModifiers(e: RollExpression)
    ensures && (forall i :: 0 <= i < |NotationTree(e).children| ==> ModifierParses(NotationTree(e).children[i]))
            && ModifiersOf(NotationTree(e).children, e.faces) == e.modifiers
  {
    var parts := [DiceCount(NatToString(e.count)), DiceType(NatToString(e.faces))];
    var dice := [Dice(parts)];
    var ret := RetentionPairs(e.retention);
    var mods := ModifierPairs(e.modifiers, e.faces);
    assert NotationTree(e).children == dice + (ret + mods);
    ModifierPairsRoundTrip(e.modifiers, e.faces);
    assert forall i :: 0 <= i < |ret| ==> ModifierParses(ret[i]);
    assert forall i :: 0 <= i < |dice| ==> ModifierParses(dice[i]);
    ModifiersOfAppend(ret, mods, e.faces);
    ModifiersOfAppend(dice, ret + mods, e.faces);
    assert ModifiersOf(dice, e.faces) == [] by {
      assert dice[1..] == [];
    }
    assert ModifiersOf(ret, e.faces) == [] by {
      if ret != [] {
        assert ret[1..] == [];
      }
    }
  }

  /**
   * Reading back the node of an expression's canonical notation rebuilds the
   * expression: count, faces, retention and every modifier, a threshold
   * equal to the faces included.
   */
  lemma NotationRoundTrip(e: RollExpression)
    ensures WellFormed(NotationTree(e)) && FromPair(NotationTree(e)) == e
  {
    var parts := [DiceCount(NatToString(e.count)), DiceType(NatToString(e.faces))];
    ParseNatToString(e.count);
    ParseNatToString(e.faces);
    assert NatToString(e.faces) != "%" by {
      NatToStringDigits(e.faces);
      assert IsDigit(NatToString(e.faces)[0]);
    }
    assert DiceWellFormed(parts);
    assert DiceCountOf(parts) == e.count && FacesOf(parts) == e.faces;
    assert NotationTree(e).children[0] == Dice(parts);
    NotationRetention(e);
    NotationModifiers(e);
  }
}
