# roll-cli dice expressions in Dafny

A verified model of the dice-expression pipeline of `roll-cli`, a command-line
dice roller written in Rust. Text such as `1d4 + 4; 2d6; my roll: 1d4 + 3` is
parsed by `rusty-dice-expressions` into an expression tree and then evaluated
to integers. The dice underneath come from `rusty-dice`, which provides:

- the `Dice` value (`XdY`);
- `DiceRoll`, a roll whose results are kept in ascending order;
- the keep/drop roll modifiers.

Next to these the model covers:

- the application's older token parser and its `Dice`;
- the `RollTable` map of `rusty-roll-tables`;
- that crate's number parser.

Modules, one per part of the program:

| module | file | models |
|---|---|---|
| `Wrappers` | wrappers.dfy | `Option` and `Result` |
| `Numbers` | numbers.dfy | `u32`/`i32`; decimal text; Rust's `u32`/`i32` `from_str` |
| `Nom` | nom.dfy | the `nom` primitives used: `digit1`, `multispace0`, `space0`, `tag`, `take_until` |
| `Sorting` | sorting.dfy | `slice::sort`, specified by `SortSeq` and done in place on an array |
| `Modifiers` | modifiers.dfy | `modifiers.rs` |
| `RustyDice` | rustydice.dfy | `Dice` and `DiceRoll` of `rusty-dice` (`dice.rs` and the older copy in `lib.rs`) |
| `Expressions` | expressions.dfy | the parsers of `parse.rs` |
| `ExpressionLaws` | expression_laws.dfy | what `parse_expr_kind` and `parse_separated` do, stated without fuel |
| `ExpressionPrinting`, `KindPrinting` | expression_printing.dfy, kind_printing.dfy | a printer for trees, and the round trips it completes with the parser |
| `Evaluation` | evaluation.dfy | `eval.rs` |
| `ExpressionExamples`, `EvaluationExamples` | examples_parse.dfy, examples_eval.dfy | the unit tests of `parse.rs` and `eval.rs` |
| `LegacyDice`, `LegacyTokens` | legacy_dice.dfy, legacy_tokens.dfy | `src/dice.rs` and `src/expressions.rs` |
| `RollTableData`, `RollTableParse` | roll_table_data.dfy, roll_table_parse.dfy | `rusty-roll-tables` |

How the source's effects are modelled:

- **Randomness.** Every die outcome is an oracle parameter. `draws` holds one
  value per die, each in `[1, sides]`. For an expression, `rolls` holds one
  such sequence per dice atom, in evaluation order.
- **Panics.** The evaluator's panics are an outcome, `Panics`. These are:
  - an `unwrap` of an operand that is not a number;
  - a `u32` dice sum that overflows;
  - an `i32` addition or subtraction that overflows.

  Overflow is modelled as in a debug build, where the arithmetic is checked.
  A release build wraps instead; the model does not cover that profile.
- **`as i32`.** The cast of a dice total wraps; `AsI32` writes the wrap out.
- **Parser panics.** The parsers panic on an out-of-range digit run. The
  precondition `NoPanic` excludes such input.
- **Divergence.** `parse_expr_kind` and `parse_separated` recurse into each
  other on unconsumed input. A `fuel` parameter bounds that recursion, and
  `OutOfFuel` stands for the recursion that never ends.

Where the code and the documentation of `rusty-dice-expressions` disagree,
the model follows the code:

- **Unparseable text diverges.** `ExpressionError::ParseError` is documented
  as what happens when an expression cannot be parsed
  (`crates/rusty-dice-expressions/src/lib.rs:75-78`). On `"whatdochat"`,
  however, both `parse_simple` and `parse_labeled` fail, so `parse_expr_kind`
  recurses forever. `ParseExprKindCases` shows that `parse_expr_kind` never
  fails at all, so `ParseError` is unreachable.
- **`parse_expr_kind` never yields `Separated`.** The crate documents
  separated expressions such as `hp: 3d6; arrows in pouch: 2d10 + 20` as an
  `ExprKind` (`lib.rs:28-47`). For `"1d6 + 3; -2; my roll: 1d4"`,
  `parse_expr_kind` returns the first element, `Simple`, and leaves the rest
  unconsumed. Only `parse_separated`, called directly as its unit test does,
  builds the three-element list.
- **`"+"` evaluates successfully.** It evaluates to `Operation(Add)`, for
  which `eval_complete` is false.

## Model

| member | source | states |
|---|---|---|
| Numbers.ShowNat | crates/rusty-dice/src/dice.rs:185 | the decimal text of a number is a non-empty run of digits with no leading zero |
| Numbers.ValueOfShowNat | crates/rusty-dice/src/dice.rs:185 | reading a number's decimal text back gives the number |
| Numbers.ShowNatInjective | crates/rusty-dice/src/dice.rs:185 | different numbers have different decimal texts |
| Numbers.DigitSpan | crates/rusty-roll-tables/src/parse.rs:14 | the longest all-digit prefix: the next character, if any, is not a digit |
| Numbers.DigitSpanOfDigits | crates/rusty-roll-tables/src/parse.rs:14 | a digit run followed by a non-digit has exactly its own length as digit prefix |
| Numbers.ParseU32 | crates/rusty-dice/src/dice.rs:167-177 | `parse::<u32>` accepts exactly a non-empty digit run, optionally after one `+`, whose value fits in `u32`, and gives that value; a `-` or any other character is refused |
| Numbers.ParseI32 | crates/rusty-dice-expressions/src/parse.rs:151-152 | `parse::<i32>` accepts exactly a non-empty digit run, optionally after one `+` or `-`, whose signed value is in the `i32` range, and gives that value |
| Numbers.ParseU32OfShowNat | crates/rusty-dice/src/dice.rs:170 | the decimal text of any `u32` parses back to it |
| Nom.Digit1 | crates/rusty-roll-tables/src/parse.rs:14 | `digit1` succeeds iff at least one digit leads, and returns the longest digit prefix and what follows it |
| Nom.Multispace0 | crates/rusty-dice-expressions/src/parse.rs:188 | `multispace0` consumes only whitespace and stops at the first non-whitespace |
| Nom.Space0 | src/expressions.rs:44 | `space0` consumes only spaces and tabs and stops at the first other character |
| Nom.Tag | crates/rusty-dice-expressions/src/parse.rs:205 | a one-character `tag` succeeds iff the text starts with that character, and consumes exactly it |
| Nom.TakeUntil | crates/rusty-dice-expressions/src/parse.rs:205 | `take_until` succeeds iff the character occurs, and splits the text before its first occurrence |
| Nom.Multispace0Skip | crates/rusty-dice-expressions/src/parse.rs:188 | whitespace followed by non-whitespace text is skipped exactly |
| Nom.TakeUntilFirst | crates/rusty-dice-expressions/src/parse.rs:205 | `take_until` stops at the first occurrence, after a prefix free of it |
| Sorting.SortSeq | crates/rusty-dice/src/dice.rs:123 | the sorted arrangement is ascending, a permutation of the input, and of the same length |
| Sorting.SortedUnique | crates/rusty-dice/src/dice.rs:123 | two ascending permutations of the same values are equal, so any correct sort gives `SortSeq` |
| Sorting.SortSeqOfSorted | crates/rusty-dice/src/dice.rs:67 | sorting an already ascending sequence changes nothing |
| Sorting.SortInPlace | crates/rusty-dice/src/dice.rs:123 | sorting the array in place leaves it equal to `SortSeq` of its old contents |
| Sorting.SiftDown | crates/rusty-dice/src/dice.rs:123 | one insertion step extends the sorted prefix by one element, permutes the array and leaves the elements after it unchanged |
| Sorting.SortVec | crates/rusty-dice/src/lib.rs:75 | a vector sorted in place holds `SortSeq` of its contents |
| Modifiers.SaturatingSub | crates/rusty-dice/src/modifiers.rs:48 | `saturating_sub` is the difference, or 0 when it would be negative |
| Modifiers.KeepHighestApply | crates/rusty-dice/src/modifiers.rs:47-50 | `KeepHighest(n)` keeps the last `min(n, len)` values, in order |
| Modifiers.KeepLowestApply | crates/rusty-dice/src/modifiers.rs:79-81 | `KeepLowest(n)` keeps the first `min(n, len)` values, in order |
| Modifiers.DropLowestApply | crates/rusty-dice/src/modifiers.rs:66-69 | `DropLowest(n)` removes the first `n` values; it needs `n <= len` for its `usize` subtraction |
| Modifiers.DropHighestApply | crates/rusty-dice/src/modifiers.rs:103-106 | `DropHighest(n)` removes the last `n` values; it needs `n <= len` |
| Modifiers.Window | crates/rusty-dice/src/modifiers.rs:44-106 | each modifier's result lies at a window inside its input |
| Modifiers.Map | crates/rusty-dice/src/modifiers.rs:25-32 | `map` is `apply`; its result is the window of the input, never longer, a sub-multiset, and sorted when the input is |
| Modifiers.SliceOfSorted | crates/rusty-dice/src/modifiers.rs:44-106 | a contiguous slice of sorted results is sorted |
| Modifiers.KeepHighestKeepsHighest | crates/rusty-dice/src/modifiers.rs:34-50 | on sorted results every value `KeepHighest` drops is at most every value it keeps |
| Modifiers.KeepLowestKeepsLowest | crates/rusty-dice/src/modifiers.rs:72-81 | on sorted results every value `KeepLowest` keeps is at most every value it drops |
| Modifiers.KeepSaturates | crates/rusty-dice/src/modifiers.rs:47-81 | keeping at least as many values as there are returns the input unchanged |
| Modifiers.Show | crates/rusty-dice/src/modifiers.rs:38-147 | the modifiers display as `kh<n>`, `dl<n>`, `kl<n>`, `dh<n>`, and `RollModifiers` as the modifier it wraps |
| Modifiers.ShowInjective | crates/rusty-dice/src/modifiers.rs:142-147 | the displayed text determines the modifier |
| RustyDice.New | crates/rusty-dice/src/dice.rs:142-147 | `new` stores the quantity and the number of sides as given |
| RustyDice.Single | crates/rusty-dice/src/lib.rs:88-90 | `single(n)` is `new(1, n)` |
| RustyDice.Display | crates/rusty-dice/src/dice.rs:183-187 | `{quantity}d{num_sides}`: the text always contains a `d` |
| RustyDice.Split | crates/rusty-dice/src/dice.rs:159 | `split("d")` gives one more piece than there are `d`s, and no piece contains a `d` |
| RustyDice.SplitJoin | crates/rusty-dice/src/dice.rs:159 | joining the pieces of a split with the separator gives back the text |
| RustyDice.SplitNoSep | crates/rusty-dice/src/dice.rs:159 | text without the separator splits into itself alone |
| RustyDice.SplitOnce | crates/rusty-dice/src/dice.rs:159-165 | text with exactly one separator splits into the parts before and after it |
| RustyDice.FromStr | crates/rusty-dice/src/dice.rs:155-181 | every failure is `InvalidExpression` of the whole text, and a success means exactly one `d` |
| RustyDice.FromStrFields | crates/rusty-dice/src/dice.rs:158-180 | a success reads both sides of the only `d` as `u32` and returns those two fields |
| RustyDice.FromStrOfParts | crates/rusty-dice/src/dice.rs:158-180 | two `u32` fields around one `d` always parse to the dice with those fields |
| RustyDice.FromStrBadQuantity | crates/rusty-dice/src/dice.rs:167-171 | a first field that `u32` parsing refuses makes the whole text `InvalidExpression` |
| RustyDice.FromStrDisplay | crates/rusty-dice/src/lib.rs:96-125 | parsing the displayed text of any dice gives that dice back |
| RustyDice.DisplaySingleSix | crates/rusty-dice/src/lib.rs:132-136 | `single(6)` displays as `1d6` |
| RustyDice.FromStrFourEights | crates/rusty-dice/src/lib.rs:139-145 | `"4d8"` parses to `new(4, 8)` |
| RustyDice.FromStrNoSides | crates/rusty-dice/src/dice.rs:133-138 | `"1d0"` parses to `new(1, 0)`, and no roll of it exists, since `random_range(1..=0)` has no value to give |
| RustyDice.FromStrPlusSign | crates/rusty-dice/src/dice.rs:167-177 | `"+4d8"` parses to `new(4, 8)`, since `u32::from_str` accepts a leading `+` |
| RustyDice.FromStrManyD | crates/rusty-dice/src/lib.rs:148-155 | `"3d5d8d9"` is `InvalidExpression("3d5d8d9")` |
| RustyDice.FromStrNegative | crates/rusty-dice/src/lib.rs:148-155 | `"-10d8"` is `InvalidExpression("-10d8")` |
| RustyDice.FromStrWords | crates/rusty-dice/src/lib.rs:148-155 | `"whatdochat"` is `InvalidExpression("whatdochat")` |
| RustyDice.FromStrNoD | crates/rusty-dice/src/lib.rs:148-155 | `"lolkek"` is `InvalidExpression("lolkek")` |
| RustyDice.SumBetween | crates/rusty-dice/src/dice.rs:52-54 | values within `[lo, hi]` sum to between `len * lo` and `len * hi` |
| RustyDice.SumSortSeq | crates/rusty-dice/src/dice.rs:52-54 | sorting does not change the sum |
| RustyDice.RollSumBounds | crates/rusty-dice/src/dice.rs:133-139 | a roll of `XdY` totals between `X` and `X * Y` |
| RustyDice.RollSorted | crates/rusty-dice/src/lib.rs:71-77 | the older `roll` returns `quantity` values, each in `[1, num_sides]`, ascending, and equal to the sorted draws |
| RustyDice.DiceRoll.Total | crates/rusty-dice/src/dice.rs:52-54 | `sum` is the sum of the values; on an ascending roll it lies between the count times the lowest value and the count times the highest value |
| RustyDice.TotalOfSorted | crates/rusty-dice/src/dice.rs:52-54 | the sum of a roll made from a vector equals the sum of the vector, whatever order it had |
| RustyDice.DiceRoll.Len | crates/rusty-dice/src/dice.rs:57-59 | `len` is the number of values |
| RustyDice.DiceRoll.IsEmpty | crates/rusty-dice/src/dice.rs:105-107 | `is_empty` holds iff `len` is 0 |
| RustyDice.DiceRoll.Apply | crates/rusty-dice/src/dice.rs:73-80 | `apply` replaces the values with the modifier's result, which keeps the ascending order |
| RustyDice.DiceRoll.And | crates/rusty-dice/src/dice.rs:62-70 | `and` is the modifier's result sorted again: ascending always, and equal to the plain result when the roll was ascending |
| RustyDice.DiceRoll.Keep | crates/rusty-dice/src/dice.rs:83-85 | `keep(n)` is `and(KeepHighest(n))`: the `min(n, len)` highest values, ascending |
| RustyDice.DiceRoll.Drop | crates/rusty-dice/src/dice.rs:88-90 | `drop(n)` is `and(DropLowest(n))`: all but the `n` lowest values, ascending |
| RustyDice.DiceRoll.KeepLowest | crates/rusty-dice/src/dice.rs:93-95 | `keep_lowest(n)` is `and(KeepLowest(n))`: the `min(n, len)` lowest values, ascending |
| RustyDice.DiceRoll.DropHighest | crates/rusty-dice/src/dice.rs:98-100 | `drop_highest(n)` is `and(DropHighest(n))`: all but the `n` highest values, ascending |
| RustyDice.FromVec | crates/rusty-dice/src/dice.rs:116-126 | `From<Vec>` holds the same multiset of values, ascending |
| RustyDice.Roll | crates/rusty-dice/src/dice.rs:133-139 | `roll` gives `quantity` values, each in `[1, num_sides]`, ascending, totalling between `quantity` and `quantity * num_sides` |
| Expressions.ApplicationOf | crates/rusty-dice-expressions/src/parse.rs:78-86 | `Expr::application` puts the operation constant in the operator slot and the two atoms as constant operands |
| Expressions.ShowOp | crates/rusty-dice-expressions/src/parse.rs:23-32 | an operation displays as one character that `parse_operation` reads back as that operation |
| Expressions.GetNum | crates/rusty-dice-expressions/src/parse.rs:88-93 | `get_num` gives a value iff the expression is a number constant, and then its number |
| Expressions.NoPanicSuffix | crates/rusty-dice-expressions/src/parse.rs:144-155 | text on which no atom parser panics keeps that property after any prefix is consumed |
| Expressions.ParseOperation | crates/rusty-dice-expressions/src/parse.rs:129-139 | succeeds iff the text starts with `+` or `-`, consumes exactly that character, and maps `+` to `Add` and `-` to `Sub` |
| Expressions.RecognizeDice | crates/rusty-dice-expressions/src/parse.rs:143 | recognises exactly `digits d digits`, returning that text and leaving the rest |
| Expressions.ParseDice | crates/rusty-dice-expressions/src/parse.rs:141-147 | succeeds iff the text starts with `digits d digits`, and gives the dice with those decimal fields and the rest untouched |
| Expressions.DiceTextParse | crates/rusty-dice-expressions/src/parse.rs:144 | `Dice::from_str` of recognised dice text succeeds with its two fields |
| Expressions.ParseNum | crates/rusty-dice-expressions/src/parse.rs:149-159 | succeeds iff an in-range digit run or `-` and a digit run leads, giving `Number(v)` or `Number(-v)` and the rest after the digits |
| Expressions.ParseNegative | crates/rusty-dice-expressions/src/parse.rs:154-156 | the `-digits` branch succeeds iff `-` and a digit leads, and negates the digits' value |
| Expressions.ParseAtom | crates/rusty-dice-expressions/src/parse.rs:161-163 | an atom always consumes at least one character |
| Expressions.DiceBeforeNumber | crates/rusty-dice-expressions/src/parse.rs:162 | dice are tried first: `digits d digits` is a dice atom, not a number |
| Expressions.NegativeBeforeOperation | crates/rusty-dice-expressions/src/parse.rs:162 | numbers are tried before operations: `-5` is `Number(-5)`, not `Sub` |
| Expressions.AtomStart | crates/rusty-dice-expressions/src/parse.rs:161-163 | every atom starts with a digit or a sign |
| Expressions.ParseConstant | crates/rusty-dice-expressions/src/parse.rs:165-167 | succeeds exactly when `parse_atom` does, wrapping its atom in `Constant` |
| Expressions.ParseSpacedAtom | crates/rusty-dice-expressions/src/parse.rs:172 | `preceded(multispace0, parse_atom)` always consumes at least one character |
| Expressions.ParseSpacedOperation | crates/rusty-dice-expressions/src/parse.rs:173 | `preceded(multispace0, parse_operation)` gives an operation and consumes at least one character |
| Expressions.ParseApplication | crates/rusty-dice-expressions/src/parse.rs:169-184 | an application has a constant left operand, an operation constant as operator and a parsed expression on the right (right-associative) |
| Expressions.ParseExpr | crates/rusty-dice-expressions/src/parse.rs:186-197 | a parsed expression consumes input and has the parser's right-associative shape |
| Expressions.ParseSimple | crates/rusty-dice-expressions/src/parse.rs:199-201 | succeeds exactly when `parse_expr` does, wrapping its tree in `Simple` |
| Expressions.ParseLabel | crates/rusty-dice-expressions/src/parse.rs:205 | succeeds iff the text has a `:`; after the leading whitespace, the text is the label, the `:` and the rest, and the label has no `:` |
| Expressions.ParseLabeled | crates/rusty-dice-expressions/src/parse.rs:203-209 | a labeled kind has a label free of `:` and a body of the parser's shape |
| Expressions.ParseExprKind | crates/rusty-dice-expressions/src/parse.rs:219-221 | what is left after a kind is a suffix of the input |
| Expressions.ParseSeparated | crates/rusty-dice-expressions/src/parse.rs:211-217 | a separated list holds at least one element and leaves a suffix of the input |
| Expressions.SeparatedTail | crates/rusty-dice-expressions/src/parse.rs:213 | the loop of `separated_list1` after its first element never fails; it stops or runs out of fuel |
| ExpressionLaws.ParseKind | crates/rusty-dice-expressions/src/parse.rs:219-221 | an element is simple, else labeled, and the recursion is endless exactly when both fail; never a failure |
| ExpressionLaws.ParseExprKindCases | crates/rusty-dice-expressions/src/parse.rs:211-221 | `parse_expr_kind` with any fuel is `ParseKind`: simple, else labeled, else endless recursion |
| ExpressionLaws.NeverSeparated | crates/rusty-dice-expressions/src/parse.rs:219-221 | `parse_expr_kind` never fails and never returns a `Separated` kind |
| ExpressionLaws.SeparatedRest | crates/rusty-dice-expressions/src/parse.rs:213 | the loop of `separated_list1` without fuel never fails |
| ExpressionLaws.SeparatorThenKind | crates/rusty-dice-expressions/src/parse.rs:213 | one round of the loop consumes input and leaves safe text |
| ExpressionLaws.SeparatedRestShape | crates/rusty-dice-expressions/src/parse.rs:213 | the loop leaves a suffix and collects only simple and labeled kinds |
| ExpressionLaws.SeparatedList | crates/rusty-dice-expressions/src/parse.rs:211-217 | `parse_separated` without fuel never fails, and gives a non-empty list of simple and labeled kinds |
| ExpressionLaws.SeparatedTailCases | crates/rusty-dice-expressions/src/parse.rs:213 | the loop with any fuel is the loop without fuel |
| ExpressionLaws.ParseSeparatedCases | crates/rusty-dice-expressions/src/parse.rs:211-217 | `parse_separated` with any positive fuel is `SeparatedList` |
| ExpressionPrinting.ShowAtom | crates/rusty-dice-expressions/src/parse.rs:23-39 | a printed atom starts with a digit or a sign |
| ExpressionPrinting.NoPanicShowAtom | crates/rusty-dice-expressions/src/parse.rs:144-155 | printed atoms never make an atom parser panic |
| ExpressionPrinting.ParseDiceShow | crates/rusty-dice-expressions/src/parse.rs:141-147 | displayed dice read back as the same dice atom |
| ExpressionPrinting.ParseNumberShow | crates/rusty-dice-expressions/src/parse.rs:149-159 | every number but `i32::MIN`, printed, reads back as itself |
| ExpressionPrinting.ParseOperationShow | crates/rusty-dice-expressions/src/parse.rs:23-32 | a displayed operation reads back as itself |
| ExpressionPrinting.ParseAtomShow | crates/rusty-dice-expressions/src/parse.rs:161-163 | every printable atom reads back from its text, whatever follows it |
| ExpressionPrinting.ShowExpr | crates/rusty-dice-expressions/src/parse.rs:60-63 | printed expressions start with a digit or a sign |
| ExpressionPrinting.ParseExprSkipsSpace | crates/rusty-dice-expressions/src/parse.rs:186-188 | `parse_expr` skips leading whitespace |
| ExpressionPrinting.ApplicationSteps | crates/rusty-dice-expressions/src/parse.rs:169-184 | an atom, an operator and an expression in sequence form the application of that operator |
| ExpressionPrinting.ApplicationNeedsOperator | crates/rusty-dice-expressions/src/parse.rs:173 | without an operator after the first atom there is no application |
| ExpressionPrinting.ParseConstantShow | crates/rusty-dice-expressions/src/parse.rs:189-192 | a lone atom is a constant: application is tried first and fails |
| ExpressionPrinting.ParseApplicationShow | crates/rusty-dice-expressions/src/parse.rs:169-184 | a printed atom, operator and expression read back as that application |
| ExpressionPrinting.ParseExprShow | crates/rusty-dice-expressions/src/parse.rs:186-197 | printing an expression and parsing the text gives the expression back |
| KindPrinting.ShowKind | crates/rusty-dice-expressions/src/parse.rs:109-113 | printed kinds never start with whitespace |
| KindPrinting.LabelNotSimple | crates/rusty-dice-expressions/src/parse.rs:220 | text starting like a label is not a simple expression |
| KindPrinting.ParseLabelShow | crates/rusty-dice-expressions/src/parse.rs:205 | a printed label is read up to its colon |
| KindPrinting.ParseLabeledShow | crates/rusty-dice-expressions/src/parse.rs:203-209 | `label: expr` reads back as that labeled kind |
| KindPrinting.ParseKindLabelShow | crates/rusty-dice-expressions/src/parse.rs:203-209 | `label: expr` reads back through `parse_expr_kind` for every label without `:` that starts with neither whitespace, a digit nor a sign, digits inside included, whenever the text cannot make an atom parser panic |
| KindPrinting.ParseKindShow | crates/rusty-dice-expressions/src/parse.rs:219-221 | a printed simple or labeled kind reads back as itself |
| KindPrinting.ShowRest | crates/rusty-dice-expressions/src/parse.rs:213 | the elements after the first, each after `"; "`, end where an expression may stop |
| KindPrinting.SeparatedRestShow | crates/rusty-dice-expressions/src/parse.rs:213 | the loop of `separated_list1` reads printed elements back in order and consumes them all |
| KindPrinting.SeparatedListShow | crates/rusty-dice-expressions/src/parse.rs:211-217 | kinds joined by `"; "` read back as the list of those kinds |
| KindPrinting.ParseSeparatedShow | crates/rusty-dice-expressions/src/parse.rs:211-217 | with any fuel, `parse_separated` reads printed kinds back as that list |
| Evaluation.FitsSplit | crates/rusty-dice-expressions/src/eval.rs:24-25 | rolls for two parts in order split into rolls for each |
| Evaluation.AsI32 | crates/rusty-dice-expressions/src/eval.rs:20 | `as i32` keeps the value modulo 2^32, and the value itself when it fits |
| Evaluation.CheckedI32 | crates/rusty-dice-expressions/src/eval.rs:29-32 | an `i32` result exists iff the mathematical result is in range, and is that result |
| Evaluation.RollTotal | crates/rusty-dice-expressions/src/eval.rs:19 | the total of a roll is the sum of its draws |
| Evaluation.EvalComplete | crates/rusty-dice-expressions/src/eval.rs:41-46 | an expression is complete exactly when `get_num` has a value for it |
| Evaluation.Eval | crates/rusty-dice-expressions/src/eval.rs:15-39 | a dice constant becomes the `as i32` of the sum of its roll, or panics when that `u32` sum overflows; evaluation uses the rolls of its dice in order; a value is complete unless it is an operation; `None` only for an application with another operator; non-dice constants are returned unchanged |
| Evaluation.Arithmetic | crates/rusty-dice-expressions/src/eval.rs:27-35 | `Add` gives `l + r` and `Sub` gives `l - r` when in range and panic otherwise; any other operator gives `None` |
| Evaluation.EvalDice | crates/rusty-dice-expressions/src/eval.rs:18-21 | when its largest total fits in `i32`, a dice constant evaluates to the number its roll sums to, which lies between its quantity and quantity times sides, using one roll |
| Evaluation.EvalNumeric | crates/rusty-dice-expressions/src/eval.rs:15-39 | an expression of dice and numbers whose bound fits in `i32` evaluates to a complete number within that bound |
| Evaluation.EvalApplication | crates/rusty-dice-expressions/src/eval.rs:23-33 | an application evaluates its left operand, then its right one with the remaining rolls, and adds or subtracts them |
| Evaluation.KindComplete | crates/rusty-dice-expressions/src/eval.rs:69-75 | a simple or labeled kind is complete exactly when `get_num` has a value for its expression; an empty separated list is complete |
| Evaluation.Wrap | crates/rusty-dice-expressions/src/eval.rs:55-56 | `?` on an expression's outcome keeps values, `None` and panics |
| Evaluation.EvalKind | crates/rusty-dice-expressions/src/eval.rs:50-67 | kind evaluation keeps the variant and the label, and a list keeps its length, using its rolls in order |
| Evaluation.EvalKinds | crates/rusty-dice-expressions/src/eval.rs:57-65 | a list's elements evaluate in order, each with the rolls the one before left; the result has the same length |
| Evaluation.Prepend | crates/rusty-dice-expressions/src/eval.rs:58-62 | the elements already pushed stay in front, and `None` or a panic discards them |
| Evaluation.EvalKindsStep | crates/rusty-dice-expressions/src/eval.rs:59-61 | one round of the loop pushes the evaluated element and goes on with the remaining rolls |
| Evaluation.EvalKindsStop | crates/rusty-dice-expressions/src/eval.rs:60 | an element giving `None` or panicking ends the whole list the same way, with no partial result |
| Evaluation.EvaluateKind | crates/rusty-dice-expressions/src/eval.rs:50-67 | the imperative `ExprKind::eval` equals `EvalKind` |
| Evaluation.EvaluateList | crates/rusty-dice-expressions/src/eval.rs:57-65 | the `for` loop with `push` and early return equals `EvalKinds` |
| Evaluation.EvalKindComplete | crates/rusty-dice-expressions/src/eval.rs:69-75 | a kind built from dice and numbers within `i32` evaluates to a complete kind |
| Evaluation.EvalKindsComplete | crates/rusty-dice-expressions/src/eval.rs:73 | every element of such a list evaluates to a complete kind |
| Evaluation.EvalFromStr | crates/rusty-dice-expressions/src/eval.rs:78-82 | a returned result is never an error and never `Separated`; it diverges exactly when neither a simple nor a labeled kind parses |
| Evaluation.ParsedShape | crates/rusty-dice-expressions/src/parse.rs:219-221 | the kind `parse_expr_kind` returns is simple or labeled with a tree of the parser's shape |
| Evaluation.RunKind | crates/rusty-dice-expressions/src/eval.rs:81 | a value becomes `Ok`, `None` becomes `EvaluationError`; a parsed kind never gives `EvaluationError` |
| Evaluation.ShapedNeverNothing | crates/rusty-dice-expressions/src/eval.rs:34 | a parsed tree always has `+` or `-` as operator, so it never evaluates to `None` |
| ExpressionExamples.ParseOpExample | crates/rusty-dice-expressions/src/parse.rs:227-232 | `"+"` parses to `Operation(Add)` |
| ExpressionExamples.ParseDieExample | crates/rusty-dice-expressions/src/parse.rs:234-239 | `"12d20"` parses to the dice `12d20` |
| ExpressionExamples.DiceShown | crates/rusty-dice-expressions/src/parse.rs:141-167 | any printed dice is read back by `parse_dice` and by `parse_constant` |
| ExpressionExamples.ParseNumExample | crates/rusty-dice-expressions/src/parse.rs:241-246 | `"-1234"` parses to `Number(-1234)` |
| ExpressionExamples.NumberShown | crates/rusty-dice-expressions/src/parse.rs:149-159 | any printed number but `i32::MIN` is read back by `parse_num` |
| ExpressionExamples.ParseConstantExample | crates/rusty-dice-expressions/src/parse.rs:248-253 | `"2d6"` parses to the dice constant `2d6` |
| ExpressionExamples.ParseApplicationExample | crates/rusty-dice-expressions/src/parse.rs:255-260 | `"2d6 + 5"` parses to `application(Add, 2d6, 5)` |
| ExpressionExamples.DigitLabelExample | crates/rusty-dice-expressions/src/parse.rs:203-209 | `"roll 2: 1d4"` parses to `1d4` labeled `roll 2`: a label may carry digits |
| ExpressionExamples.ParseLabeledExample | crates/rusty-dice-expressions/src/parse.rs:262-270 | `"yay dice: 1d4"` parses to `1d4` labeled `yay dice` |
| ExpressionExamples.LabeledShown | crates/rusty-dice-expressions/src/parse.rs:203-209 | any printed labeled dice is read back by `parse_labeled` |
| ExpressionExamples.ParseSeparatedExample | crates/rusty-dice-expressions/src/parse.rs:272-285 | `parse_separated` reads `"1d6 + 3; -2; my roll: 1d4"` whole, as its three kinds |
| ExpressionExamples.ParseExprKindOfSeparatedExample | crates/rusty-dice-expressions/src/parse.rs:219-221 | `parse_expr_kind` reads only the first kind of that text and leaves the rest |
| ExpressionExamples.FirstKindOfList | crates/rusty-dice-expressions/src/parse.rs:219-221 | on any printed list `parse_expr_kind` returns the first kind and leaves the others |
| ExpressionExamples.NoPanicWithoutDigits | crates/rusty-dice-expressions/src/parse.rs:144-155 | text without digits or `-` never makes an atom parser panic |
| ExpressionExamples.DivergesWithoutAtom | crates/rusty-dice-expressions/src/parse.rs:211-221 | text with no `:` that does not start with an atom recurses without end |
| ExpressionExamples.WhatdochatDiverges | crates/rusty-dice-expressions/src/parse.rs:219-221 | `"whatdochat"` recurses without end |
| EvaluationExamples.EvalFromStrOfKind | crates/rusty-dice-expressions/src/eval.rs:78-82 | `eval_from_str` evaluates the kind `parse_expr_kind` returns and discards the rest |
| EvaluationExamples.EvalFirstOfList | crates/rusty-dice-expressions/src/eval.rs:78-82 | on a printed list only the first kind is evaluated |
| EvaluationExamples.EvalOneDie | crates/rusty-dice-expressions/src/eval.rs:18-21 | one die evaluates to the face rolled |
| EvaluationExamples.EvalDiceRollExample | crates/rusty-dice-expressions/src/eval.rs:88-93 | `"1d4"` evaluates to the face rolled, a complete result |
| EvaluationExamples.EvalOnePlusFour | crates/rusty-dice-expressions/src/eval.rs:23-29 | `1d4 + 4` with roll `x` is `x + 4` |
| EvaluationExamples.EvalApplicationExample | crates/rusty-dice-expressions/src/eval.rs:95-100 | `"1d4 + 4"` evaluates to the face rolled plus 4, a complete result |
| EvaluationExamples.EvalSeparationExample | crates/rusty-dice-expressions/src/eval.rs:102-107 | `"1d4 + 4; 2d6; my roll: 1d4 + 3"` evaluates its first kind only, to a complete result |
| EvaluationExamples.EvalPlusExample | crates/rusty-dice-expressions/src/eval.rs:37 | `"+"` evaluates successfully to itself, which is not complete |
| EvaluationExamples.RunPlusPlusThree | crates/rusty-dice-expressions/src/eval.rs:24 | an operation as left operand makes the `unwrap` panic |
| EvaluationExamples.EvalPlusPlusThreePanics | crates/rusty-dice-expressions/src/eval.rs:24 | `"+ + 3"` parses, then panics when evaluated |
| EvaluationExamples.EvalWhatdochatDiverges | crates/rusty-dice-expressions/src/eval.rs:78-82 | `eval_from_str("whatdochat")` never returns: no `ParseError` |
| LegacyDice.Roll | src/dice.rs:10-14 | the roll has `quantity` values, each in `[1, num_sides]`, in the order drawn |
| LegacyDice.RollPossible | src/dice.rs:11-12 | a roll exists iff the quantity is 0 or there is at least one side: `gen_range(1..=0)` panics |
| LegacyDice.ToString | src/dice.rs:17-21 | `{quantity}d{num_sides}`, the same text the newer `Display` gives |
| LegacyTokens.Digits | src/expressions.rs:19-22 | `map_res(take_while(digit), to_num)` succeeds iff a non-empty digit run in `u32` range leads, giving its value |
| LegacyTokens.Number | src/expressions.rs:24-27 | `num` is a number token exactly when the digit parser succeeds |
| LegacyTokens.DieToken | src/expressions.rs:29-41 | `die` gives a dice token, consumes input and stops before a non-digit |
| LegacyTokens.ParseToken | src/expressions.rs:44 | `alt((die, num))` consumes at least one character |
| LegacyTokens.Trailer | src/expressions.rs:44 | the spaces and optional `+` after a token leave a suffix |
| LegacyTokens.Item | src/expressions.rs:44 | one round of the `many0` loop consumes input |
| LegacyTokens.DiceExpression | src/expressions.rs:43-47 | `dice_expression` never fails; it stops where no further token starts, with at most one token per character consumed |
| LegacyTokens.DieOfText | src/expressions.rs:29-41 | an optional quantity, `d` and the sides make a dice token, the quantity defaulting to 1 |
| LegacyTokens.DieDone | src/expressions.rs:29-41 | every dice token comes from text of that shape |
| LegacyTokens.DieWithoutQuantity | src/expressions.rs:29-41 | `"d6"` is six sides with quantity 1 |
| LegacyTokens.NumberBeforeBareD | src/expressions.rs:44 | `"2d"` fails as dice and is the number 2, leaving `"d"` |
| LegacyTokens.ParseTokenShow | src/expressions.rs:44 | a written token reads back as itself |
| LegacyTokens.DiceExpressionShow | src/expressions.rs:43-47 | tokens written with `" + "` between them read back as those tokens, in order |
| LegacyTokens.DiceExpressionOfStop | src/expressions.rs:43-47 | text that starts no token gives no tokens and is left whole |
| RollTableData.HashMap.Get | crates/rusty-roll-tables/src/data.rs:24-26 | `get` gives a value iff the key is present, and then its value |
| RollTableData.HashMap.Insert | crates/rusty-roll-tables/src/data.rs:39 | `insert` maps the key to the value, replacing any value it had, and returns the old value |
| RollTableData.Filled | crates/rusty-roll-tables/src/data.rs:38 | the keys produced, each mapped to the value |
| RollTableData.RollTable.New | crates/rusty-roll-tables/src/data.rs:16-18 | `new` stores the map it is given |
| RollTableData.RollTable.Default | crates/rusty-roll-tables/src/data.rs:7-13 | `Default` is a table with a fresh, empty map |
| RollTableData.RollTable.Inner | crates/rusty-roll-tables/src/data.rs:24-26 | `inner` is the table's own map |
| RollTableData.RollTable.InnerMut | crates/rusty-roll-tables/src/data.rs:20-22 | `inner_mut` is the table's own map, so changes through it are the table's |
| RollTableData.RollTable.InsertIter | crates/rusty-roll-tables/src/data.rs:34-41 | afterwards every key produced maps to the value and every other key is as before |
| RollTableData.InsertedKeys | crates/rusty-roll-tables/src/data.rs:38-40 | each key produced maps to the value inserted, overwriting what it had |
| RollTableData.OtherKeys | crates/rusty-roll-tables/src/data.rs:38-40 | a key not produced keeps its value or its absence |
| RollTableData.InsertThroughInnerMut | crates/rusty-roll-tables/src/lib.rs:20-25 | inserting `12 -> 53` through `inner_mut` is seen through `inner` |
| RollTableData.InsertRange | crates/rusty-roll-tables/src/lib.rs:27-35 | after inserting 42 under `1..=10`, each of those keys gives 42 |
| RollTableParse.ParseNumber | crates/rusty-roll-tables/src/parse.rs:13-15 | succeeds iff a digit leads; consumes the longest digit prefix and gives its decimal value; needs that value within `i32` |
| RollTableParse.ParseNumberShow | crates/rusty-roll-tables/src/parse.rs:13-15 | the decimal text of any non-negative `i32` reads back to it, leaving what follows |

## Left out

- Random number generation. Die outcomes are parameters: `draws` for one roll, `rolls` for an expression. Their uniform distribution is not stated.
- The standard library's algorithms. `slice::sort` is specified by its result, `SortSeq`, and carried out here as an insertion sort; any correct sort gives the same result (`Sorting.SortedUnique`). Hashing and iterator laziness are not modelled. A key iterator is the sequence of keys it produces, which `insert_iter` collects first anyway.
- The generic bounds (`Key`, `Step`, `RollMapping` for closures) are not modelled. `RollModifier` covers only the four built-in modifiers.
- Expressions.ParseExprKind: the recursion with `parse_separated` is bounded by `fuel`; the stack overflow the source ends in is the outcome `OutOfFuel`, and `Run.Diverges` for `eval_from_str`.
- Expressions.ParseDice: its `unwrap` of `Dice::from_str` panics on a field above `u32::MAX`. This parser and the others require `SafeAt`/`NoPanic`, which excludes such text. `NoPanic` asks this of every suffix, which is sufficient but not necessary: some excluded text does not panic.
- Expressions.ParseNum: the `unwrap` of the `-digits` branch panics above `i32::MAX`; excluded by the same precondition.
- The text of `nom`'s error messages and of `ExpressionError::ParseError`. A failure is the value `Fail`, and `ParseError` carries no text.
- ExpressionPrinting.ParseNumberShow: `i32::MIN` is left out, because `parse_num` cannot read `-2147483648`: the digits exceed `i32::MAX` and the `unwrap` panics.
- KindPrinting.ParseKindShow: printable labels (`LabelOk`) carry no digits, only so that the text's freedom from parser panics follows from the label alone. KindPrinting.ParseKindLabelShow states the round trip for every label without `:` that starts with neither whitespace, a digit nor a sign, digits inside included (`"roll 2"`), given that the text does not panic. Labels that start with whitespace lose it to `multispace0`, and labels that start with a digit or a sign are read by `parse_simple` instead.
- Modifiers.DropLowestApply: `n > len` underflows `usize` and panics in a debug build; the precondition `n <= len` excludes it. A release build wraps, and the wrapped count then keeps the whole input (through `saturating_sub` for `DropLowest`, through `take` for `DropHighest`); that profile is not modelled. The precondition is shared by Modifiers.DropHighestApply, RustyDice.DiceRoll.Drop and RustyDice.DiceRoll.DropHighest.
- RustyDice.DiceRoll.Total: the `u32` sum is defined only when it does not overflow; the overflow panic of `sum` (debug build) and its wrap (release build) are not modelled.
- Evaluation.Eval: a dice with a positive quantity and no sides, such as `"1d0"`, which `Dice::from_str` accepts (RustyDice.FromStrNoSides), makes `random_range(1..=0)` panic when it is rolled (`crates/rusty-dice/src/dice.rs:135`). No rolls exist for it, so the precondition `Fits` excludes such expressions and this panic is not modelled.
- RollTableParse.ParseNumber: a digit run above `i32::MAX` makes `unwrap` panic; the precondition excludes it.
- Ownership, borrowing and moves are not modelled. `inner_mut` hands out the same `HashMap` object, so changes made through it are changes to the table.
- `crates/rusty-dice/src/cards.rs` is not part of this model. It is a `Distribution` over cards, a thin wrapper over the random number library.
- The doc examples in `crates/rusty-dice-expressions/src/lib.rs` call functions that do not exist in the source. `ExpressionError` is modelled.
- The command-line front end (`src/main.rs`, `src/cli.rs`, `src/app.rs`) is process plumbing. `format_expr` relies on a `Display` for `Expr` that the source does not have.
- The `From<DiceRoll> for Vec` conversion is the `values` field itself.
