# deez: dice notation and roll evaluation, modelled in Dafny

`deez` reads dice notation such as `3d6h2+1`, `d%` or `2d6!` and rolls it.
This project models its two core pieces:

- **The evaluation engine** (`RollExpression::roll` and `explodes_at`, `src/lib/lib.rs`). It:
  1. resolves the explosion threshold from the first `Explode` modifier;
  2. draws `count` dice, each followed by an explosion chain while the draw is at or above the threshold;
  3. applies keep-highest or keep-lowest retention with the source's tie-break. The values are sorted, all but `n` form a drop list, and each outcome in pool order that finds its value on the list takes that entry off and loses its `retained` flag;
  4. sums the retained values and folds the `+ - x /` modifiers over the sum left to right;
  5. rebuilds the canonical notation string.
- **The notation builder** (`From<Pair>`, `from_pairs` and `parse_from_str`, `src/lib/standard.rs`). It turns the parse tree into `RollExpression`s with the builder's defaults: one die, six faces, `%` as a hundred, keep everything, and a bare `!` exploding at the face count.

The random generator is replaced by `draws: seq<nat>`, the values it would return, consumed front to back. Each `panic!` of the source becomes an error value (`RollError`):

- a threshold outside `[1, faces]` becomes `InvalidModifier`;
- `gen_range(1..=0)` on a zero-faced die becomes `EmptyRange`;
- `n > count` becomes `InvalidRetention`;
- a division by zero becomes `DivideByZero`.

`DrawsExhausted` stands for the draws running out, which the real generator never does.

The pest grammar is not part of this model. `ParseFromStr` takes it as a parameter (a function from the input to an optional parse tree). The builder works over a small tree datatype with one node per grammar rule it looks at, each node holding the text of its span. The structural `unwrap`s and `panic!`s that guard against trees the grammar never builds become the `WellFormed` precondition.

Modules, in dependency order:

| module | file | contents |
|---|---|---|
| `Wrappers` | `wrappers.dfy` | `Option` and `Result` |
| `Decimal` | `decimal.dfy` | `format!("{}", n)`, `str::parse::<usize>` and `str::trim` |
| `Sequences` | `sequences.dfy` | `sort`, `reverse`, `position`, `remove`, sums |
| `Dice` | `dice.dfy` | the data types, `explodes_at`, the quality of an outcome |
| `Explosion` | `explosion.dfy` | the drawing loops |
| `Retention` | `retention.dfy` | the retention walk |
| `Arithmetic` | `arithmetic.dfy` | the total and the modifier loop |
| `Canonical` | `canonical.dfy` | the canonical string |
| `Engine` | `engine.dfy` | `roll` as a whole |
| `Standard` | `standard.dfy` | the builder |
| `RoundTrip` | `roundtrip.dfy` | the canonical string read back by the builder |

The imperative parts of `roll` are methods proved against specification functions:

- `DrawPool` holds the `for` loop with its inner `while` loop;
- `DropMarked` holds the `iter_mut` walk that calls `remove`;
- `SumRetained` holds the `fold`;
- `ApplyModifiers` holds the modifier loop;
- `Roll` holds the whole.

The properties are stated about those specification functions.

Where one might expect otherwise, the model follows the code:

- The canonical string prints the face count as a number, so `d%` reads back as `1d100`. It does not keep the `%`.
- An `Explode` threshold is not range-checked when the expression is built. It is checked only by `explodes_at` when rolling.
- The error `parse_from_str` reports is `ErrorKind::InvalidData`.
- Retention, threshold and divide-by-zero failures are panics in the code. Here they are the error values above.

## Model

| member | source | states |
|---|---|---|
| Dice.ExplodesAt | src/lib/lib.rs:83-94 | A threshold it returns lies in [1, faces]. A failure is `InvalidModifier` carrying a threshold outside that range. |
| Dice.ExplodesAtFirst | src/lib/lib.rs:83-94 | The first `Explode` decides: its threshold is returned if in [1, faces] and rejected otherwise, whatever follows it. |
| Dice.ExplodesAtNone | src/lib/lib.rs:83-94 | The result is "no threshold" exactly when there is no `Explode` modifier. |
| Dice.Quality | src/lib/lib.rs:113-117 | `Good` iff value == faces (checked first, so a one-faced die is `Good`); `Bad` iff value is 1 and not faces; `Regular` otherwise. |
| Dice.Item | src/lib/lib.rs:110-118 | Definition; no own contract. The `RollItem` pushed for a draw: its value, `retained: true`, and the `Quality` classification. Every outcome starts retained. `Engine.RollPool` and `Engine.RollRetention` (under `All`) state this of a roll. |
| Explosion.PoolLength | src/lib/lib.rs:108-134 | The draws run out exactly when they hold fewer than `count` chain ends. Otherwise the result is a pool length: exactly `count` chain ends, the last draw closing a chain. |
| Explosion.PoolLengthUnique | src/lib/lib.rs:108-134 | A pool length is unique: any prefix with `count` chain ends whose last draw closes a chain is the one `PoolLength` finds. |
| Explosion.Pool | src/lib/lib.rs:108-134 | A pool holds at least `count` outcomes. |
| Explosion.Items | src/lib/lib.rs:123-131 | One `Item` per draw, in order, the same length as the draws. These are the pushes of the drawing loops. |
| Explosion.DrawPool | src/lib/lib.rs:108-134 | The nested drawing loops build exactly `Pool`: the outcomes of the shortest prefix of the draws closing `count` chains, or nothing when the draws run out. |
| Explosion.PoolWithoutExplosion | src/lib/lib.rs:108-119 | Without a threshold, exactly `count` draws are used (when there are that many). |
| Explosion.ChainsClosed | src/lib/lib.rs:120-133 | The last draw of a pool closes a chain, so a draw at or above the threshold is never a pool's last draw. |
| Explosion.ExplodeAtOneNeverEnds | src/lib/lib.rs:120-133 | Threshold 1, which `explodes_at` accepts, never closes a chain: no supply of draws of at least 1 completes even one die. |
| Sequences.Sort | src/lib/lib.rs:141-142 | `sort` yields an ascending permutation of its input. |
| Sequences.SortUnique | src/lib/lib.rs:141-142 | Any ascending permutation of the values is the sorted vector. |
| Sequences.Reverse | src/lib/lib.rs:158-160 | `reverse` puts element `i` at `len - 1 - i` and keeps the multiset. |
| Sequences.FirstIndex | src/lib/lib.rs:148 | `position` finds the first occurrence: the value is at the index and not before it, and `None` means absent. |
| Sequences.RemoveAtMultiset | src/lib/lib.rs:149 | `remove(idx)` takes exactly one copy of the element at `idx` off the multiset. |
| Sequences.Consume | src/lib/lib.rs:148-150 | `position` then `remove` takes one copy of the value off the drop list, if present. |
| Sequences.SumRemoveAt | src/lib/lib.rs:149 | Removing an element takes exactly its value off the sum. |
| Dice.Values | src/lib/lib.rs:141 | The values of the outcomes, collected in order: the same length as the outcomes, with each entry that outcome's value. |
| Retention.Retain | src/lib/lib.rs:136-173 | Definition; no own contract. The retention `match`: `All` keeps the pool, `Highest`/`Lowest` fail when `n > count` and otherwise mark the drop list. Its properties are stated by `RetainHighest`, `RetainLowest`, `RetainOnlyClears` and `ApplyRetention`. |
| Retention.DropList | src/lib/lib.rs:141-146 | The drop list holds `len - n` values. |
| Retention.MarkDropped | src/lib/lib.rs:147-152 | The walk keeps length, values and qualities and never sets a flag. |
| Retention.DropMarked | src/lib/lib.rs:147-152 | The `iter_mut` loop with `position`/`remove` computes `MarkDropped`. |
| Retention.ApplyRetention | src/lib/lib.rs:136-173 | The retention `match` (sort, reverse for `Lowest`, take, walk, or the error) computes `Retain`. |
| Retention.DroppedIff | src/lib/lib.rs:147-152 | Tie-break: outcome `i` keeps its flag iff it had it and the outcomes before it already hold at least as many copies of its value as the drop list. Otherwise it loses the flag, so the earliest equal values are the ones dropped. |
| Retention.MarkDroppedNothing | src/lib/lib.rs:143-152 | An empty drop list (`Highest(len)`) leaves the pool unchanged. |
| Retention.MarkDroppedConsumes | src/lib/lib.rs:147-152 | A drop list drawn from the pool is consumed entirely: dropped values are exactly the list, retained values the rest, and all but the list's length stay retained. |
| Retention.RetainHighest | src/lib/lib.rs:137-153 | Error iff `n > count` (the requested count, not the pool size). Otherwise exactly `n` remain retained, holding the multiset of the `n` largest values, and no dropped value exceeds a retained one. |
| Retention.RetainLowest | src/lib/lib.rs:154-171 | Error iff `n > count`. Otherwise exactly `n` remain retained, holding the `n` smallest values, and no dropped value is below a retained one. |
| Retention.RetainOnlyClears | src/lib/lib.rs:136-173 | Retention keeps length, order, values and qualities and only clears flags; `All` changes nothing. |
| Arithmetic.RetainedSum | src/lib/lib.rs:175-181 | Definition; no own contract. The `fold` over retained outcomes. Stated by `RetainedSumIsSum`, `RetainedSumAll`, `RetainedSumAfterDrop` and `SumRetained`. |
| Arithmetic.Step | src/lib/lib.rs:184-190 | Definition; no own contract. One arm of the modifier `match`, with `DivideByZero` for a zero divisor and `TruncDiv` for `/`. Stated by `FoldFails`, `FoldIgnoresExplode` and `FoldAdditive`. |
| Arithmetic.Fold | src/lib/lib.rs:183-191 | Definition; no own contract. The modifier loop as a left-to-right fold of `Step`. Stated by `FoldFails`, `FoldAppend`, `FoldIgnoresExplode`, `FoldAdditive` and `ApplyModifiers`. |
| Arithmetic.SumRetained | src/lib/lib.rs:175-181 | The `fold` computes `RetainedSum`, the sum over retained outcomes. |
| Arithmetic.RetainedSumIsSum | src/lib/lib.rs:175-181 | The folded total is the sum of exactly the retained values. |
| Arithmetic.RetainedSumAll | src/lib/lib.rs:175-181 | With nothing dropped, it is the sum of the whole pool. |
| Arithmetic.RetainedSumAfterDrop | src/lib/lib.rs:141-181 | After the retention walk, the total is the pool's sum minus the drop list's sum. |
| Arithmetic.TruncDiv | src/lib/lib.rs:188 | `isize` division truncates toward zero: the remainder `a - q*b` is smaller in absolute value than `b` and has the sign of `a`. |
| Arithmetic.ApplyModifiers | src/lib/lib.rs:183-191 | The modifier loop computes `Fold`, stopping with `DivideByZero` at a zero divisor. |
| Arithmetic.FoldFails | src/lib/lib.rs:183-191 | The modifiers fail iff one of them is `Divide(0)`, and then with `DivideByZero`. |
| Arithmetic.FoldAppend | src/lib/lib.rs:183-191 | Modifiers apply left to right: folding `a + b` folds `a`, then `b`. |
| Arithmetic.FoldIgnoresExplode | src/lib/lib.rs:183-191 | `Explode` modifiers leave the total unchanged wherever they stand. |
| Arithmetic.FoldAdditive | src/lib/lib.rs:185-186 | With only `Add`/`Subtract`, the total moves by their signed sum. |
| Engine.RollSpec | src/lib/lib.rs:101-224 | Definition; no own contract. `roll` as a function of the expression and the draws, failing in the order of the source's panics. Stated by `Roll`, `RollSucceeds`, `RollPool`, `RollValuesInRange`, `RollRetention`, `RollTotal` and the four scenario lemmas. |
| Canonical.CanonicalText | src/lib/lib.rs:217 | Definition; no own contract. `format!("{}d{}{}{}")` of count, faces, retention text and modifier text. Stated by `RoundTrip.NotationTreeText`, `RoundTrip.NotationRoundTrip` and `Engine.RollPool`. |
| Canonical.ModifierText | src/lib/lib.rs:196-208 | Definition; no own contract. One modifier's suffix, with a bare `!` when the threshold equals the faces. Tied to the modifier node's text by `RoundTrip.ModifierPairText` and read back by `RoundTrip.ModifierPairRoundTrip`. |
| Canonical.ModifiersText | src/lib/lib.rs:193-209 | Definition; no own contract. The suffixes joined in order. Stated by `RoundTrip.ModifierPairsText`. |
| Canonical.RetentionText | src/lib/lib.rs:211-215 | Definition; no own contract. Empty, `h{n}` or `l{n}`. Read back by `RoundTrip.NotationRetention` and `RoundTrip.NotationRoundTrip`. |
| Engine.Roll | src/lib/lib.rs:101-224 | `roll` with these draws computes `RollSpec`: threshold, pool, retention, total, modifiers, notation, or the first error. |
| Engine.RollSucceeds | src/lib/lib.rs:101-224 | A roll succeeds iff all five conditions hold: the threshold is valid; the die has faces (or no dice are asked for); the draws hold `count` chain ends; `n <= count`; no modifier divides by zero. |
| Engine.RollPool | src/lib/lib.rs:101-224 | A successful roll's input is the canonical string. Its outcomes are the pool prefix of the draws with their qualities. There are at least `count` of them, exactly `count` without `Explode`. |
| Engine.RollValuesInRange | src/lib/lib.rs:108-134 | With draws in [1, faces], every outcome is in [1, faces]. |
| Engine.RollRetention | src/lib/lib.rs:136-173 | `All` keeps every outcome. `Highest(n)`/`Lowest(n)` keep exactly `n`, holding the `n` largest or smallest values of the pool. |
| Engine.RollTotal | src/lib/lib.rs:175-191 | The total is the modifiers folded over the sum of the retained values (the whole pool under `All`). |
| Engine.RollOneD20 | src/lib/lib.rs:101-224 | `1d20` with draw 15 gives input `1d20`, total 15, one regular outcome. |
| Engine.RollThreeD6KeepTwo | src/lib/lib.rs:101-224 | `3d6h2` with draws 2, 5, 4 drops the 2 and totals 9. |
| Engine.RollTwoD6Exploding | src/lib/lib.rs:101-224 | `2d6!6` with draws 6, 3, 2: the 6 explodes into the 3, total 11, input shown as `2d6!`. |
| Engine.RollPercentile | src/lib/standard.rs:65-70 | The builder reads the `d%` tree as one hundred-sided die. Rolled with draw 57, it totals 57 and is shown as `1d100`, as lib.rs:217 prints it. |
| RoundTrip.NotationTreeText | src/lib/lib.rs:193-217 | The tree built for an expression spans exactly its canonical string: count, `d`, faces, retention suffix, modifier suffixes in order, with a bare `!` at the face count. |
| RoundTrip.ModifierPairsText | src/lib/lib.rs:193-209 | The modifier nodes span exactly the modifier suffixes, in order. |
| RoundTrip.NotationRoundTrip | src/lib/standard.rs:42-117 | Building from the tree of an expression's canonical string gives the expression back, every modifier included. The tree is built from the expression, not parsed: for count 0 or faces 0 the grammar rejects the text (`0d6` and `d0` are among its illegal examples), so there the lemma is about the builder alone. |
| RoundTrip.ModifierPairRoundTrip | src/lib/standard.rs:92-109 | Each modifier's printed node is built back into that modifier, a bare `!` into `Explode(faces)`. |
| Decimal.NatToString | src/lib/lib.rs:217 | Prints a number in decimal, with at least one digit. Its inverse is stated by `ParseNatToString` and `ParseTrimmedNatToString`. |
| Decimal.Trim | src/lib/standard.rs:97 | Definition; no own contract. `str::trim` over the Unicode White_Space set. `TrimStartKeepsSuffix` and `TrimEndKeepsPrefix` state what it removes (only white space, up to the first and after the last other character). `ParseTrimmedNatToString` and `ParseTrimmedEmpty` state what the parse then reads. |
| Decimal.TrimStartKeepsSuffix | src/lib/standard.rs:97 | The leading part `trim` removes is all white space, and what remains is a suffix of the input that is empty or starts with a non-white-space character. |
| Decimal.TrimEndKeepsPrefix | src/lib/standard.rs:97 | The trailing part `trim` removes is all white space, and what remains is a prefix of the input that is empty or ends with a non-white-space character. |
| Decimal.ParseNat | src/lib/standard.rs:61 | `parse::<usize>` succeeds iff the text after an optional `+` is non-empty and all digits. |
| Decimal.ParseNatToString | src/lib/standard.rs:61 | Parsing a printed number gives it back. |
| Decimal.ParseTrimmedNatToString | src/lib/standard.rs:97 | A printed number survives `trim` and `parse`. |
| Decimal.ParseTrimmedEmpty | src/lib/standard.rs:97-103 | An empty operand does not parse, so a bare `!` falls back to the faces. |
| Standard.FromPairs | src/lib/standard.rs:11-31 | Definition; no own contract. One `FromPair` per non-EOI child of the root. Stated by `FromPairsInOrder` and `ParseFromStr`. |
| Standard.FromPair | src/lib/standard.rs:42-117 | Definition; no own contract. The `From<Pair>` conversion: count, faces, retention and modifiers of one expression node. Stated by `DiceDefaults`, `RetentionFirst`, `RetentionAbsent`, `FromPairModifiers`, `ModifiersIndependent` and `RoundTrip.NotationRoundTrip`. |
| Standard.DiceCountOf | src/lib/standard.rs:56-63 | Definition; no own contract. The `DiceCount` numeral, or 1. Stated by `DiceDefaults`. |
| Standard.FacesOf | src/lib/standard.rs:57-70 | Definition; no own contract. `%` gives 100, a numeral its value, no `DiceType` gives 6. Stated by `DiceDefaults`. |
| Standard.RetentionOf | src/lib/standard.rs:72-90 | Definition; no own contract. The first `Retention` child, or `All`. Stated by `RetentionFirst`, `RetentionAbsent` and `RetentionIgnoresModifiers`. |
| Standard.ModifierOf | src/lib/standard.rs:95-105 | Definition; no own contract. One `Modifier` child, with a bare `!` at the face count. Stated by `ExplodeOperand` and `RoundTrip.ModifierPairRoundTrip`. |
| Standard.ModifiersOf | src/lib/standard.rs:92-109 | Definition; no own contract. The `Modifier` children in order. Stated by `ModifiersInOrder` and `FromPairModifiers`. |
| Standard.ParseFromStr | src/lib/standard.rs:35-39 | Fails iff the grammar rejects the input, always with the single `InvalidData`; otherwise yields `from_pairs` of the tree. |
| Standard.FromPairsInOrder | src/lib/standard.rs:20-30 | One expression per non-EOI child of the root, in the children's order, each built from its own child. |
| Standard.DiceDefaults | src/lib/standard.rs:55-70 | A missing count is 1 and a missing face count 6. `%` gives 100. Any non-empty digit string, leading zeros included (`03d06`), gives its decimal value, so a printed number reads back as itself. |
| Standard.RetentionFirst | src/lib/standard.rs:72-90 | The first `Retention` child decides: `h` gives `Highest(n)`, `l` gives `Lowest(n)`. |
| Standard.RetentionAbsent | src/lib/standard.rs:72-90 | Retention is `All` iff there is no `Retention` child. |
| Standard.ModifiersInOrder | src/lib/standard.rs:92-109 | One modifier per `Modifier` child, in order, each built from its own child. |
| Standard.FromPairModifiers | src/lib/standard.rs:92-116 | The built expression's modifiers correspond one to one, in order, to the `Modifier` children, at the resolved face count. |
| Standard.ExplodeOperand | src/lib/standard.rs:97-103 | An `Explode` whose trimmed operand is empty gets threshold `faces`. One whose trimmed operand is a non-empty digit string, leading zeros included, gets its decimal value. There is no range check at build time. |
| Standard.RetentionIgnoresModifiers | src/lib/standard.rs:72-90 | Removing the `Modifier` children does not change the retention. |
| Standard.ModifiersIndependent | src/lib/standard.rs:55-90 | Two trees that differ only in their `Modifier` children build the same faces, count and retention. |

## Left out

- Randomness: `rand::thread_rng` and `gen_range` are replaced by the `draws` parameter. Uniformity of the draws is not a property this model can state. `RollValuesInRange` assumes the draws lie in `[1, faces]`.
- Non-termination: with threshold 1, accepted by `explodes_at`, the source's inner `while` loop never ends. Here the draws run out and the roll ends with `DrawsExhausted`. `ExplodeAtOneNeverEnds` proves that no finite supply of draws avoids this.
- `impl Display for RollResult` and `src/bin/main.rs`: colouring, printing and command-line plumbing, with no logic.
- The pest grammar and the `Pairs`/`Pair` API: the grammar file is not part of this model. Its accept/reject tests (`src/lib/standard.rs:120-147`) exercise that grammar, so they are not modelled. The builder works over an abstract tree, and `ParseFromStr` takes the grammar as a parameter.
- Structural panics on malformed trees (`src/lib/standard.rs:12-18, 44-53, 59-62, 76, 96`) are preconditions (`WellFormed`, `RollsWellFormed`) instead of error values. So are the `unwrap`s of operands that do not parse (count, faces, retention digits and non-`Explode` operands).
- Arithmetic.TruncDiv, Arithmetic.Step, Arithmetic.RetainedSum: `usize`/`isize` widths are not modelled. The sum, `n as isize` (which wraps above `isize::MAX`) and overflow of `+ - *` are on unbounded integers. `parse::<usize>` overflow errors are not modelled either.
- Decimal.ParseNat: numbers are unbounded, so a numeral too large for `usize` parses here where it fails in Rust.
- Sequences.RemoveAt: its contract gives only the new length. Its effect on the multiset is stated separately by `RemoveAtMultiset`.
