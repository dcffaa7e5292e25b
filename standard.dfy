/**
 * The standard-notation front end (src/lib/standard.rs): turning the parse
 * tree the grammar produces into `RollExpression`s, with the builder's
 * defaults (one die, six faces, `%` for a hundred, keep everything, a bare
 * `!` exploding at the face count). The grammar itself is a parameter: the
 * tree below is what it hands over, one node per grammar rule the builder
 * looks at, each holding the text of its span.
 */
module Standard {
  import opened Wrappers
  import opened Decimal
  import opened Dice

  /** The children of a `Dice` node, in order. */
  datatype DicePart = DiceCount(digits: string) | DiceType(text: string)

  datatype RetentionRule = RetentionHighest | RetentionLowest

  datatype ModifierRule =
    | ModifierAdd
    | ModifierSubtract
    | ModifierMultiply
    | ModifierDivide
    | ModifierExplode

  /** The children of a `RollExpression` node. */
  datatype ExpressionPair =
    | Dice(parts: seq<DicePart>)
    | Retention(kind: RetentionRule, digits: string)
    | Modifier(op: ModifierRule, operand: string)

  datatype RollExpressionPair = RollExpressionPair(children: seq<ExpressionPair>)

  /** The children of the root `Rolls` node: expressions, then end of input. */
  datatype RollsChild = Expression(pair: RollExpressionPair) | EOI

  datatype Rolls = Rolls(children: seq<RollsChild>)

  /** `std::io::ErrorKind::InvalidData`, the one error the parser reports. */
  datatype ParseError = InvalidData

  // ---------------------------------------------------------------------
  // What the builder requires of a tree: the `unwrap`s and `panic!`s that
  // guard against a tree the grammar does not produce.
  // ---------------------------------------------------------------------

  /**
   * A `Dice` node has a first child; after a `DiceCount` there is a second
   * one; the count and a numeric face count parse as unsigned integers.
   */
  predicate DiceWellFormed(parts: seq<DicePart>) {
    && |parts| >= 1
    && (parts[0].DiceCount? ==> |parts| >= 2 && ParseNat(parts[0].digits).Some?)
    && var t := if parts[0].DiceCount? then parts[1] else parts[0];
       (t.DiceType? ==> t.text == "%" || ParseNat(t.text).Some?)
  }

  /** The digits of the first `Retention` child, the only one read, parse. */
  predicate RetentionParses(children: seq<ExpressionPair>) {
    children != [] ==>
      if children[0].Retention? then ParseNat(children[0].digits).Some?
      else RetentionParses(children[1..])
  }

  /** Every operand but an `Explode`'s must parse once trimmed. */
  predicate ModifierParses(c: ExpressionPair) {
    c.Modifier? && c.op != ModifierExplode ==> ParseNat(Trim(c.operand)).Some?
  }

  predicate WellFormed(p: RollExpressionPair) {
    && |p.children| >= 1
    && p.children[0].Dice?
    && DiceWellFormed(p.children[0].parts)
    && RetentionParses(p.children)
    && forall i :: 0 <= i < |p.children| ==> ModifierParses(p.children[i])
  }

  predicate RollsWellFormed(root: Rolls) {
    forall i :: 0 <= i < |root.children| ==>
      root.children[i].Expression? ==> WellFormed(root.children[i].pair)
  }

  // ---------------------------------------------------------------------
  // `From<Pair> for RollExpression`
  // ---------------------------------------------------------------------

  /** `count`: the `DiceCount` child if the `Dice` node starts with one, else 1. */
  function DiceCountOf(parts: seq<DicePart>): nat
    requires DiceWellFormed(parts)
  {
    if parts[0].DiceCount? then ParseNat(parts[0].digits).value else 1
  }

  /**
   * `faces`: read from the child after the optional count when that child is
   * a `DiceType` (`%` meaning 100), else 6.
   */
  function FacesOf(parts: seq<DicePart>): nat
    requires DiceWellFormed(parts)
  {
    var t := if parts[0].DiceCount? then parts[1] else parts[0];
    if t.DiceType? then (if t.text == "%" then 100 else ParseNat(t.text).value) else 6
  }

  /** The `find_map` over the children: the first `Retention` decides. */
  function RetentionOf(children: seq<ExpressionPair>): RollRetention
    requires RetentionParses(children)
  {
    if children == [] then All
    else match children[0]
      case Retention(kind, digits) =>
        var n := ParseNat(digits).value;
        if kind == RetentionHighest then Highest(n) else Lowest(n)
      case _ => RetentionOf(children[1..])
  }

  /** One `Modifier` child; an `Explode` whose operand does not parse explodes at `faces`. */
  function ModifierOf(c: ExpressionPair, faces: nat): RollModifier
    requires c.Modifier? && ModifierParses(c)
  {
    var n := ParseNat(Trim(c.operand));
    match c.op
    case ModifierAdd => Add(n.value)
    case ModifierSubtract => Subtract(n.value)
    case ModifierMultiply => Multiply(n.value)
    case ModifierDivide => Divide(n.value)
    case ModifierExplode => Explode(if n.Some? then n.value else faces)
  }

  /** The `filter_map` over the children: one modifier per `Modifier` child. */
  function ModifiersOf(children: seq<ExpressionPair>, faces: nat): seq<RollModifier>
    requires forall i :: 0 <= i < |children| ==> ModifierParses(children[i])
  {
    if children == [] then []
    else
      var rest := ModifiersOf(children[1..], faces);
      match children[0]
      case Modifier(_, _) =>
        assert ModifierParses(children[0]);
        [ModifierOf(children[0], faces)] + rest
      case _ => rest
  }

  function FromPair(p: RollExpressionPair): RollExpression
    requires WellFormed(p)
  {
    var parts := p.children[0].parts;
    var faces := FacesOf(parts);
    RollExpression(faces, DiceCountOf(parts), RetentionOf(p.children), ModifiersOf(p.children, faces))
  }

  // ---------------------------------------------------------------------
  // `from_pairs` and `parse_from_str`
  // ---------------------------------------------------------------------

  /** One expression per `RollExpression` child of the root; `EOI` is skipped. */
  function FromPairs(children: seq<RollsChild>): seq<RollExpression>
    requires RollsWellFormed(Rolls(children))
  {
    if children == [] then []
    else
      var rest := FromPairs(children[1..]);
      match children[0]
      case Expression(p) => [FromPair(p)] + rest
      case EOI => rest
  }

  /**
   * `parse_from_str`: the grammar either rejects the input, reported as
   * `InvalidData` whatever went wrong, or hands over the root node.
   */
  function ParseFromStr(input: string, grammar: string -> Option<Rolls>): (r: Result<seq<RollExpression>, ParseError>)
    requires grammar(input).Some? ==> RollsWellFormed(grammar(input).value)
    ensures r.Failure? <==> grammar(input).None?
    ensures r.Failure? ==> r.error == InvalidData
    ensures r.Success? ==> r.value == FromPairs(grammar(input).value.children)
  {
    match grammar(input)
    case None => Failure(InvalidData)
    case Some(root) => Success(FromPairs(root.children))
  }

  // ---------------------------------------------------------------------
  // Order: one result per node, in the nodes' order
  // ---------------------------------------------------------------------

  function ExpressionCount(children: seq<RollsChild>): nat {
    if children == [] then 0
    else (if children[0].Expression? then 1 else 0) + ExpressionCount(children[1..])
  }

  /**
   * `from_pairs` yields exactly one expression per `RollExpression` child of
   * the root, and the one built from the child at `i` comes after those of
   * the expressions before it.
   */
  lemma {:induction false} FromPairsInOrder(children: seq<RollsChild>)
    requires RollsWellFormed(Rolls(children))
    ensures |FromPairs(children)| == ExpressionCount(children)
    ensures forall i :: 0 <= i < |children| && children[i].Expression? ==>
      && ExpressionCount(children[..i]) < |FromPairs(children)|
      && FromPairs(children)[ExpressionCount(children[..i])] == FromPair(children[i].pair)
  {
    if children != [] {
      var tail := children[1..];
      assert RollsWellFormed(Rolls(tail)) by {
        forall i | 0 <= i < |tail| && tail[i].Expression? ensures WellFormed(tail[i].pair) {
          assert tail[i] == children[i + 1];
        }
      }
      FromPairsInOrder(tail);
      forall i | 0 <= i < |children| && children[i].Expression?
        ensures && ExpressionCount(children[..i]) < |FromPairs(children)|
                && FromPairs(children)[ExpressionCount(children[..i])] == FromPair(children[i].pair)
      {
        if i > 0 {
          assert children[..i][1..] == tail[..i - 1];
          assert children[i] == tail[i - 1];
        } else {
          assert children[..i] == [];
        }
      }
    }
  }

  function ModifierCount(children: seq<ExpressionPair>): nat {
    if children == [] then 0
    else (if children[0].Modifier? then 1 else 0) + ModifierCount(children[1..])
  }

  /**
   * One modifier per `Modifier` child, in the children's order, each built
   * from its own child.
   */
  lemma {:induction false} ModifiersInOrder(children: seq<ExpressionPair>, faces: nat)
    requires forall i :: 0 <= i < |children| ==> ModifierParses(children[i])
    ensures |ModifiersOf(children, faces)| == ModifierCount(children)
    ensures forall i :: 0 <= i < |children| && children[i].Modifier? ==>
      && ModifierCount(children[..i]) < |ModifiersOf(children, faces)|
      && ModifiersOf(children, faces)[ModifierCount(children[..i])]
         == ModifierOf(children[i], faces)
  {
    if children != [] {
      var tail := children[1..];
      assert forall i :: 0 <= i < |tail| ==> ModifierParses(tail[i]) by {
        forall i | 0 <= i < |tail| ensures ModifierParses(tail[i]) {
          assert tail[i] == children[i + 1];
        }
      }
      ModifiersInOrder(tail, faces);
      var built := ModifiersOf(children, faces);
      var rest := ModifiersOf(tail, faces);
      var head := ModifierHead(children[0], faces);
      ModifiersOfCons(children, faces);
      forall i | 0 <= i < |children| && children[i].Modifier?
        ensures && ModifierCount(children[..i]) < |built|
                && built[ModifierCount(children[..i])] == ModifierOf(children[i], faces)
      {
        if i > 0 {
          assert children[..i][1..] == tail[..i - 1];
          assert ModifierCount(children[..i]) == |head| + ModifierCount(tail[..i - 1]);
          assert children[i] == tail[i - 1];
        } else {
          assert children[..i] == [];
        }
      }
    }
  }

  /** What the first child contributes to the modifier list. */
  function ModifierHead(c: ExpressionPair, faces: nat): seq<RollModifier>
    requires ModifierParses(c)
  {
    if c.Modifier? then [ModifierOf(c, faces)] else []
  }

  lemma ModifiersOfCons(children: seq<ExpressionPair>, faces: nat)
    requires children != []
    requires forall i :: 0 <= i < |children| ==> ModifierParses(children[i])
    ensures ModifiersOf(children, faces) == ModifierHead(children[0], faces) + ModifiersOf(children[1..], faces)
  {
    if !children[0].Modifier? {
      assert ModifierHead(children[0], faces) == [];
    }
  }

  // ---------------------------------------------------------------------
  // Defaults
  // ---------------------------------------------------------------------

  /** The retention comes from the first `Retention` child, wherever it stands. */
  lemma {:induction false} RetentionFirst(children: seq<ExpressionPair>, i: nat)
    requires RetentionParses(children)
    requires i < |children| && children[i].Retention?
    requires forall j :: 0 <= j < i ==> !children[j].Retention?
    ensures ParseNat(children[i].digits).Some?
    ensures RetentionOf(children) == (
      var n := ParseNat(children[i].digits).value;
      if children[i].kind == RetentionHighest then Highest(n) else Lowest(n))
  {
    if i > 0 {
      assert !children[0].Retention?;
      assert children[1..][i - 1] == children[i];
      RetentionFirst(children[1..], i - 1);
    }
  }

  /** The retention is `All` exactly when there is no `Retention` child. */
  lemma {:induction false} RetentionAbsent(children: seq<ExpressionPair>)
    requires RetentionParses(children)
    ensures RetentionOf(children) == All <==> forall j :: 0 <= j < |children| ==> !children[j].Retention?
  {
    if children != [] && !children[0].Retention? {
      RetentionAbsent(children[1..]);
      if forall j :: 0 <= j < |children| - 1 ==> !children[1..][j].Retention? {
        forall j | 0 <= j < |children| ensures !children[j].Retention? {
          if j > 0 {
            assert children[j] == children[1..][j - 1];
          }
        }
      }
    }
  }

  /** Without a `Retention` child there is nothing for the retention to parse. */
  lemma {:induction false} RetentionParsesWithout(children: seq<ExpressionPair>)
    requires forall j :: 0 <= j < |children| ==> !children[j].Retention?
    ensures RetentionParses(children)
  {
    if children != [] {
      assert forall j :: 0 <= j < |children| - 1 ==> !children[1..][j].Retention? by {
        forall j | 0 <= j < |children| - 1 ensures !children[1..][j].Retention? {
          assert children[1..][j] == children[j + 1];
        }
      }
      RetentionParsesWithout(children[1..]);
    }
  }

  /**
   * The count and faces of the `Dice` node: a missing count is 1; a missing
   * face count is 6; `%` is 100; any non-empty digit string, leading zeros
   * included, is its decimal value, so a printed number reads back as itself.
   */
  lemma DiceDefaults(parts: seq<DicePart>)
    requires DiceWellFormed(parts)
    ensures !parts[0].DiceCount? ==> DiceCountOf(parts) == 1
    ensures forall d | d != [] && AllDigits(d) :: parts[0] == DiceCount(d) ==> DiceCountOf(parts) == DigitsValue(d)
    ensures forall n: nat :: parts[0] == DiceCount(NatToString(n)) ==> DiceCountOf(parts) == n
    ensures var t := if parts[0].DiceCount? then parts[1] else parts[0];
      && (!t.DiceType? ==> FacesOf(parts) == 6)
      && (t == DiceType("%") ==> FacesOf(parts) == 100)
      && (forall d | d != [] && AllDigits(d) :: t == DiceType(d) ==> FacesOf(parts) == DigitsValue(d))
      && forall n: nat :: t == DiceType(NatToString(n)) ==> FacesOf(parts) == n
  {
    forall d | d != [] && AllDigits(d) && parts[0] == DiceCount(d) ensures DiceCountOf(parts) == DigitsValue(d) {
      assert IsDigit(d[0]);
    }
    forall n: nat | parts[0] == DiceCount(NatToString(n)) ensures DiceCountOf(parts) == n {
      ParseNatToString(n);
    }
    var t := if parts[0].DiceCount? then parts[1] else parts[0];
    forall d | d != [] && AllDigits(d) && t == DiceType(d) ensures FacesOf(parts) == DigitsValue(d) {
      assert IsDigit(d[0]);
      assert d != "%";
    }
    forall n: nat | t == DiceType(NatToString(n)) ensures FacesOf(parts) == n {
      ParseNatToString(n);
      assert NatToString(n) != "%" by {
        NatToStringDigits(n);
        assert IsDigit(NatToString(n)[0]);
      }
    }
  }

  /**
   * An `Explode` threshold is taken as written, leading zeros included, with
   * no range check against the faces; one without digits explodes at the faces.
   */
  lemma ExplodeOperand(operand: string, faces: nat)
    ensures Trim(operand) == "" ==> ModifierOf(Modifier(ModifierExplode, operand), faces) == Explode(faces)
    ensures Trim(operand) != [] && AllDigits(Trim(operand)) ==>
      ModifierOf(Modifier(ModifierExplode, operand), faces) == Explode(DigitsValue(Trim(operand)))
    ensures forall n: nat :: Trim(operand) == NatToString(n) ==> ModifierOf(Modifier(ModifierExplode, operand), faces) == Explode(n)
  {
    if Trim(operand) != [] && AllDigits(Trim(operand)) {
      assert IsDigit(Trim(operand)[0]);
    }
    forall n: nat | Trim(operand) == NatToString(n)
      ensures ModifierOf(Modifier(ModifierExplode, operand), faces) == Explode(n)
    {
      ParseNatToString(n);
    }
  }

  /** The built expression's modifiers, one per `Modifier` child, in order, at the resolved faces. */
  lemma FromPairModifiers(p: RollExpressionPair)
    requires WellFormed(p)
    ensures var e := FromPair(p);
      && |e.modifiers| == ModifierCount(p.children)
      && forall i :: 0 <= i < |p.children| && p.children[i].Modifier? ==>
           && ModifierCount(p.children[..i]) < |e.modifiers|
           && e.modifiers[ModifierCount(p.children[..i])]
              == ModifierOf(p.children[i], e.faces)
  {
    ModifiersInOrder(p.children, FromPair(p).faces);
  }

  // ---------------------------------------------------------------------
  // Independence of the modifiers
  // ---------------------------------------------------------------------

  function WithoutModifiers(children: seq<ExpressionPair>): seq<ExpressionPair> {
    if children == [] then []
    else (if children[0].Modifier? then [] else [children[0]]) + WithoutModifiers(children[1..])
  }

  lemma {:induction false} RetentionIgnoresModifiers(children: seq<ExpressionPair>)
    requires RetentionParses(children)
    ensures RetentionParses(WithoutModifiers(children))
    ensures RetentionOf(WithoutModifiers(children)) == RetentionOf(children)
  {
    if children != [] {
      var head := if children[0].Modifier? then [] else [children[0]];
      var rest := WithoutModifiers(children[1..]);
      var w := WithoutModifiers(children);
      assert w == head + rest;
      if !children[0].Retention? {
        RetentionIgnoresModifiers(children[1..]);
      }
      if head != [] {
        assert w[0] == children[0] && w[1..] == rest;
      } else {
        assert w == rest;
      }
    }
  }

  /**
   * `faces`, `count` and `retention` are settled before the modifiers are
   * read: two nodes that differ only in their `Modifier` children build the
   * same die, count and retention.
   */
  lemma ModifiersIndependent(p: RollExpressionPair, q: RollExpressionPair)
    requires WellFormed(p) && WellFormed(q)
    requires WithoutModifiers(p.children) == WithoutModifiers(q.children)
    ensures FromPair(p).faces == FromPair(q).faces
    ensures FromPair(p).count == FromPair(q).count
    ensures FromPair(p).retention == FromPair(q).retention
  {
    assert WithoutModifiers(p.children)[0] == p.children[0];
    assert WithoutModifiers(q.children)[0] == q.children[0];
    RetentionIgnoresModifiers(p.children);
    RetentionIgnoresModifiers(q.children);
  }
}
