# Calculator core, modelled in Dafny

The model covers `Calculator.java`, a small infix calculator. It has four parts that a
front end calls in turn.

- **Character classes.** Digits (which the source calls operands), the decimal point,
  the five operators `+ - * / ^`, three kinds of open bracket and three kinds of close
  bracket. There is also the bracket-pair test used by the validator.
- **`convertToProperExpression`, the normaliser.** It rewrites typed text into what the
  evaluator reads:
  - every bracket becomes `(` or `)`;
  - `removeOpen` deletes vacuous `()` pairs until none is left;
  - an implicit product gets an explicit `*`;
  - `--` and `+-` are collapsed;
  - a unary minus becomes `0-`, `+0-` or `1+0-`.
- **`isEquation` / `isEquationHelper`, the validator.** It scans left to right. It keeps a
  stack of open brackets and a running verdict that starts out false.
- **`eval`, the evaluator.** It keeps an operand stack and an operator stack and reduces
  eagerly by precedence. `hasPrecedence` decides when to reduce; `applyOperator` applies
  one operator.

Each loop or in-place update of the source is a Dafny `method` over local sequences,
standing for the Java `ArrayList`s and `Stack`s. Each method is proved equal to a
specification function:

| method | specification function | what the function is |
|---|---|---|
| `Collapse.RemoveOpen` | `Collapsed` | repeated removal of the first vacuous pair |
| `Normalize.ConvertToProperExpression` | `Normalized` | one group of output tokens per input position, then the join |
| `Validate.IsEquation` | `IsEquationSpec` | a left fold of one scan step |
| `Evaluate.Eval` | `EvalSpec` | a lexer into literals and symbols, a fold of one stack step, and the final drain |

The properties the source promises are lemmas about those functions. The evaluator is also
tied to a reference definition. `Expressions` defines expression trees built by the usual
precedence grammar: literals, the five operators and round brackets, with `+` and `-`
below `*`, `/` and `^`, and every operator associating to the left. It proves that `eval`,
on the printed text of any such tree, returns the tree's value, or the first failure met
in evaluating it.

Where the source throws, the model returns a failure:

- `None` from the normaliser and the validator;
- `Err(Failure)` from the evaluator.

This covers the unguarded index reads as well as the explicit throws. Operands are exact
`real`s.

Modules:

| module | file | what it holds |
|---|---|---|
| `Outcomes` | `outcomes.dfy` | `Option` and `Result` |
| `Chars` | `chars.dfy` | the character classes |
| `Collapse` | `collapse.dfy` | `removeOpen` |
| `Normalize` | `normalize.dfy` | `convertToProperExpression` |
| `Validate` | `validate.dfy` | `isEquation` |
| `Evaluate` | `evaluate.dfy` | `eval`, `hasPrecedence`, `applyOperator` |
| `Expressions` | `expressions.dfy` | expression trees and the proof that `eval` computes their value |
| `MinusRule` | `minus_rule.dfy` | the unary-minus rule as written and as intended (see Findings), and the minus signs it passes on to `eval` unchanged |

## Model

| member | source | states |
|---|---|---|
| Chars.CloserOf | Calculator_Vance_Shane/Calculator/src/Calculator.java:462-466 | the close bracket that pairs with an open bracket is a close bracket |
| Chars.ClosesExactly | Calculator_Vance_Shane/Calculator/src/Calculator.java:462-466 | `ch` closes the bracket `top` exactly when `top` is an open bracket and `ch` is its own kind of close bracket |
| Chars.ClassesDisjoint | Calculator_Vance_Shane/Calculator/src/Calculator.java:438-472 | decimal point, digit, open bracket, close bracket and operator are pairwise disjoint classes |
| Collapse.FirstStop | Calculator_Vance_Shane/Calculator/src/Calculator.java:357-359 | the scan of removeOpen stops at the first open bracket that is last or followed by a close bracket, and at no position before it |
| Collapse.Collapsed | Calculator_Vance_Shane/Calculator/src/Calculator.java:355-371 | text with no `()` pair and no open bracket at the end is returned unchanged |
| Collapse.CollapsedNoEmptyPair | Calculator_Vance_Shane/Calculator/src/Calculator.java:355-371 | a successful collapse leaves no open bracket directly followed by a close bracket |
| Collapse.CollapsedRemovesPairs | Calculator_Vance_Shane/Calculator/src/Calculator.java:359-363 | only whole pairs are deleted: the result is the input with some characters left out and the rest in their order, every non-bracket character is kept, the length drops by an even number, and as many open as close brackets go |
| Collapse.CollapsedFromInput | Calculator_Vance_Shane/Calculator/src/Calculator.java:359-363 | every character of the result occurs in the input |
| Collapse.TrailingOpenFails | Calculator_Vance_Shane/Calculator/src/Calculator.java:359 | an open bracket in the last position makes the scan read past the end, so the collapse fails |
| Collapse.CollapsedIdempotent | Calculator_Vance_Shane/Calculator/src/Calculator.java:355-371 | collapsing a collapsed text changes nothing |
| Collapse.RemoveOpen | Calculator_Vance_Shane/Calculator/src/Calculator.java:355-371 | the in-place deletion loop computes the collapse, failing exactly where it fails |
| Normalize.GroupAt | Calculator_Vance_Shane/Calculator/src/Calculator.java:240-333 | each position consumes one or two characters and never runs past the end |
| Normalize.EmitAt | Calculator_Vance_Shane/Calculator/src/Calculator.java:240-333 | one turn of the loop appends the tokens of the group at `i` and advances past it, and fails exactly where reading `c.get(i + 2)` fails |
| Normalize.ConvertToProperExpression | Calculator_Vance_Shane/Calculator/src/Calculator.java:204-352 | the list-building loop and the join compute the normalised text, and fail exactly where the normalisation fails |
| Normalize.JoinWithoutSpaces | Calculator_Vance_Shane/Calculator/src/Calculator.java:336-348 | when no token is a single space, the join is the plain concatenation |
| Normalize.NormalizedClean | Calculator_Vance_Shane/Calculator/src/Calculator.java:212-228 | the output has no space and no bracket other than `(` and `)` |
| Normalize.GroupExplicitProducts | Calculator_Vance_Shane/Calculator/src/Calculator.java:244-263 | no group holds an implicit product, and a group ending in a digit or `)` is that character alone with no implicit product after it |
| Normalize.TokensExplicitProducts | Calculator_Vance_Shane/Calculator/src/Calculator.java:240-333 | the concatenated tokens from any position hold no implicit product |
| Normalize.NormalizedExplicitProducts | Calculator_Vance_Shane/Calculator/src/Calculator.java:244-263 | in the output of text without spaces, no `)` is followed by a digit or `(`, and no digit by `(`; the condition on spaces is needed, as SpacedProductExample shows |
| Normalize.ImplicitProductExample | Calculator_Vance_Shane/Calculator/src/Calculator.java:259-263 | `2(3)` becomes `2*(3)` |
| Normalize.GenericBracketsExample | Calculator_Vance_Shane/Calculator/src/Calculator.java:212-257 | `{1}[2]` becomes `(1)*(2)` |
| Normalize.DoubleMinusExample | Calculator_Vance_Shane/Calculator/src/Calculator.java:266-290 | `5--3` becomes `5+3` |
| Normalize.LeadingMinusExample | Calculator_Vance_Shane/Calculator/src/Calculator.java:302-309 | `-5+2` becomes `0-5+2` |
| Normalize.MinusAfterProductExample | Calculator_Vance_Shane/Calculator/src/Calculator.java:320-325 | `2*-3` becomes `2*1+0-3` |
| Normalize.PlusMinusExample | Calculator_Vance_Shane/Calculator/src/Calculator.java:292-298 | `5+-3` becomes `5-3` |
| Normalize.DroppedDoubleMinusExample | Calculator_Vance_Shane/Calculator/src/Calculator.java:279-283 | `(--3)` becomes `(3)`: a `--` between an open bracket and a digit is dropped |
| Normalize.MinusAfterBracketExample | Calculator_Vance_Shane/Calculator/src/Calculator.java:313-317 | `(2)-3` becomes `(2)+0-3` |
| Normalize.SpacedProductExample | Calculator_Vance_Shane/Calculator/src/Calculator.java:259-263 | the product is inserted before spaces are dropped, so `2 (3)` becomes `2(3)`, which still holds an implicit product |
| Normalize.ThrowExamples | Calculator_Vance_Shane/Calculator/src/Calculator.java:230-279 | `2+(` fails in removeOpen, and `(--` fails when the `--` rule reads past the end |
| Validate.IsEquation | Calculator_Vance_Shane/Calculator/src/Calculator.java:374-436 | the loop with a shared bracket stack returns what the recursive scan returns, including where it throws |
| Validate.DoneStays | Calculator_Vance_Shane/Calculator/src/Calculator.java:382-436 | once a verdict is reached the rest of the text is not read |
| Validate.AdvanceMeaning | Calculator_Vance_Shane/Calculator/src/Calculator.java:388-432 | one step goes on exactly when the character passes its local checks and the bracket stack does not underflow; it then applies the bracket step and sets the verdict once anything but an open bracket is seen; a step never finishes with true |
| Validate.ScanMeaning | Calculator_Vance_Shane/Calculator/src/Calculator.java:384-432 | the scan is still going after k characters exactly when each passed its local checks and the bracket stack never underflowed; it then holds that stack and a verdict saying whether anything but an open bracket was seen; a finished scan never says true |
| Validate.IsEquationMeaning | Calculator_Vance_Shane/Calculator/src/Calculator.java:384-432 | the validator says true exactly for non-empty text whose every character passes its local checks and whose brackets end balanced without an underflow, a non-matching close bracket being skipped |
| Validate.EmptyRejected | Calculator_Vance_Shane/Calculator/src/Calculator.java:376-386 | empty text is rejected because the verdict starts out false |
| Validate.OnlyTrailingThrows | Calculator_Vance_Shane/Calculator/src/Calculator.java:393-414 | the validator throws only when the last character is `.` or `-` |
| Validate.OperatorExamples | Calculator_Vance_Shane/Calculator/src/Calculator.java:411-428 | `2+3` is accepted and `2++3` is not |
| Validate.BracketExamples | Calculator_Vance_Shane/Calculator/src/Calculator.java:402-409 | `(2+3` and `(2+3]` are rejected, `(])` is accepted |
| Validate.ThrowExamples | Calculator_Vance_Shane/Calculator/src/Calculator.java:393-414 | `2.` and `2-` throw |
| Evaluate.DigitValue | Calculator_Vance_Shane/Calculator/src/Calculator.java:444-446 | a digit's value is below ten and writes back as that digit |
| Evaluate.DotIndex | Calculator_Vance_Shane/Calculator/src/Calculator.java:60 | the first decimal point of a literal, with none before it |
| Evaluate.ParseLiteralAccepts | Calculator_Vance_Shane/Calculator/src/Calculator.java:60 | a literal parses exactly when it is digits with at most one point and at least one digit |
| Evaluate.ParseNumeral | Calculator_Vance_Shane/Calculator/src/Calculator.java:60 | the decimal text of a natural number parses back to that number |
| Evaluate.ApplyOperator | Calculator_Vance_Shane/Calculator/src/Calculator.java:120-193 | `/` fails exactly on a zero divisor and `^` exactly on an exponent that is not a whole number up to 999999999; a quotient times the divisor is the dividend; a character that is not an operator gives zero |
| Evaluate.PowAdd | Calculator_Vance_Shane/Calculator/src/Calculator.java:154-157 | the exact power adds exponents over a product |
| Evaluate.HasPrecedence | Calculator_Vance_Shane/Calculator/src/Calculator.java:106-110 | between operators, the incoming one reduces the top exactly when its tier is not above the top's; an open bracket on top is never reduced |
| Evaluate.Reduce | Calculator_Vance_Shane/Calculator/src/Calculator.java:74 | one reduction pops one operator and two operands and pushes one |
| Evaluate.CloseBracket | Calculator_Vance_Shane/Calculator/src/Calculator.java:70-80 | a close bracket keeps a proper prefix of the operator stack that ends just below a `(`, with no `(` among the entries it applies, and consumes one operand per entry applied; a `[` or `{` above the `(` is applied like an operator |
| Evaluate.PushOperator | Calculator_Vance_Shane/Calculator/src/Calculator.java:82-92 | an incoming operator ends on top of a kept prefix; every popped operator had precedence and the one left below does not |
| Evaluate.Drain | Calculator_Vance_Shane/Calculator/src/Calculator.java:96-100 | the last loop empties the operator stack and consumes one operand per operator |
| Evaluate.RunLength | Calculator_Vance_Shane/Calculator/src/Calculator.java:36-52 | a literal is the longest run of digits and points |
| Evaluate.ReduceToOpen | Calculator_Vance_Shane/Calculator/src/Calculator.java:70-80 | the loop at a close bracket computes the close-bracket step |
| Evaluate.ReduceAndPush | Calculator_Vance_Shane/Calculator/src/Calculator.java:82-92 | the loop at an operator computes the push step |
| Evaluate.ReduceAll | Calculator_Vance_Shane/Calculator/src/Calculator.java:96-100 | the final loop computes the drain |
| Evaluate.ReadLiteral | Calculator_Vance_Shane/Calculator/src/Calculator.java:36-58 | the inner loop reads exactly the next literal and stops on the character that ends it |
| Evaluate.HandleSymbol | Calculator_Vance_Shane/Calculator/src/Calculator.java:64-92 | the three branches for a non-literal character compute one stack step |
| Evaluate.Turn | Calculator_Vance_Shane/Calculator/src/Calculator.java:34-94 | one turn of the main loop consumes at least one character and performs exactly the stack steps of the tokens it passes over, stepping back at the end of the text so the last digit is looked at again |
| Evaluate.Eval | Calculator_Vance_Shane/Calculator/src/Calculator.java:28-104 | eval returns the top operand after the stack steps and the drain, or the failure that stops it |
| Evaluate.RunDisciplined | Calculator_Vance_Shane/Calculator/src/Calculator.java:64-92 | the operator stack holds only brackets and operators, of two adjacent operators the upper binds tighter, so no three operators are ever adjacent |
| Evaluate.EvalNumeral | Calculator_Vance_Shane/Calculator/src/Calculator.java:36-60 | a number alone evaluates to itself |
| Expressions.LexPrint | Calculator_Vance_Shane/Calculator/src/Calculator.java:36-58 | the printed text of a tree, followed by anything that does not continue a literal, lexes into the tree's tokens |
| Expressions.DrainReducesAll | Calculator_Vance_Shane/Calculator/src/Calculator.java:96-100 | the final loop applies every pending operator |
| Expressions.PushAfterPending | Calculator_Vance_Shane/Calculator/src/Calculator.java:82-92 | an incoming operator whose tier is at or below every pending operator applies all of them, then stops at an empty stack, an open bracket or a looser operator, and is pushed |
| Expressions.CloseAfterPending | Calculator_Vance_Shane/Calculator/src/Calculator.java:70-80 | a close bracket applies every operator pending above its `(` and then discards the `(` |
| Expressions.RunExpr | Calculator_Vance_Shane/Calculator/src/Calculator.java:34-110 | running the tokens of a well-shaped tree above an empty stack, an open bracket or a looser operator leaves the stack below untouched, only operators of the tree's tier or tighter pending, and, once they are applied, exactly the tree's value on top |
| Expressions.EvalMeaning | Calculator_Vance_Shane/Calculator/src/Calculator.java:28-110 | `eval` on the printed text of every well-shaped expression returns the value of its tree, or the first failure met in evaluating it |
| Expressions.EvalBinary | Calculator_Vance_Shane/Calculator/src/Calculator.java:74 | `x op y` applies op with the first-popped operand as the right-hand side |
| Expressions.EvalTernary | Calculator_Vance_Shane/Calculator/src/Calculator.java:82-110 | in `x o1 y o2 z` the first operator is applied first when its tier is not lower, otherwise the second is |
| Expressions.EvalBracketed | Calculator_Vance_Shane/Calculator/src/Calculator.java:64-80 | `(x o1 y) o2 z` applies o1 first whatever the tiers |
| Expressions.EvalOperandBracketed | Calculator_Vance_Shane/Calculator/src/Calculator.java:64-80 | `x o (y)` is `x o y` |
| Evaluate.EvalReturnsTop | Calculator_Vance_Shane/Calculator/src/Calculator.java:102 | the result is the top operand; operands left below it are ignored |
| Expressions.ProductBeforeSum | Calculator_Vance_Shane/Calculator/src/Calculator.java:108 | `2+3*4` is 14 |
| Expressions.PowerSharesProductTier | Calculator_Vance_Shane/Calculator/src/Calculator.java:108 | `2*3^2` is 36 |
| Expressions.SubtractionAssociatesLeft | Calculator_Vance_Shane/Calculator/src/Calculator.java:84-86 | `8-2-1` is 5 |
| Expressions.RewrittenUnaryMinus | Calculator_Vance_Shane/Calculator/src/Calculator.java:302-307 | `0-5+2`, the normalised form of `-5+2`, is -3 |
| Expressions.BracketsFirst | Calculator_Vance_Shane/Calculator/src/Calculator.java:64-80 | `(2+3)*4` is 20 |
| Expressions.ExactQuotient | Calculator_Vance_Shane/Calculator/src/Calculator.java:177-187 | `10/4` is 2.5 |
| Expressions.DivisionByZeroFails | Calculator_Vance_Shane/Calculator/src/Calculator.java:179-181 | `5/0` fails |
| Expressions.ExactPower | Calculator_Vance_Shane/Calculator/src/Calculator.java:154-157 | `2^10` is 1024 |
| MinusRule.IntendedMinusToken | Calculator_Vance_Shane/Calculator/src/Calculator.java:302-329 | the corrected rule leaves a `-` after a digit as it is, and agrees with the rule as written everywhere else |
| MinusRule.IntendedTokensAgree | Calculator_Vance_Shane/Calculator/src/Calculator.java:240-333 | on text where no `-` follows a digit, the corrected normaliser gives the same tokens as the one as written |
| MinusRule.IntendedNormalizedAgrees | Calculator_Vance_Shane/Calculator/src/Calculator.java:204-352 | the same, from typed text to output |
| MinusRule.SubtractBracketAsWritten | Calculator_Vance_Shane/Calculator/src/Calculator.java:304-307 | as written, `2-(3)` is rewritten to `20-(3)` |
| MinusRule.GluedAgain | Calculator_Vance_Shane/Calculator/src/Calculator.java:302-309 | normalising `20-(3)` once more gives `200-(3)`, so the normaliser as written is not idempotent |
| MinusRule.GluedValue | Calculator_Vance_Shane/Calculator/src/Calculator.java:28-104 | `20-(3)`, the rewritten text, evaluates to 17 |
| MinusRule.TypedValue | Calculator_Vance_Shane/Calculator/src/Calculator.java:28-104 | `2-(3)`, the text as typed, evaluates to -1 |
| MinusRule.SubtractBracketIntended | Calculator_Vance_Shane/Calculator/src/Calculator.java:302-329 | with the corrected rule, `2-(3)` is left unchanged |
| MinusRule.PowerMinusKept | Calculator_Vance_Shane/Calculator/src/Calculator.java:302-329 | a `-` after `^` matches none of the rewriting branches, so `2^-3` is normalised to itself |
| MinusRule.TripleMinusKept | Calculator_Vance_Shane/Calculator/src/Calculator.java:270-298 | in `1---2` the first two minus signs become `+` and the third is kept: the result is `1+-2` |
| MinusRule.PowerMinusAccepted | Calculator_Vance_Shane/Calculator/src/Calculator.java:384-434 | the validator accepts `2^-3` |
| MinusRule.PowerMinusFails | Calculator_Vance_Shane/Calculator/src/Calculator.java:82-92 | `eval` of `2^-3` fails on an empty stack: the `-` reduces `^`, which finds only one operand |
| MinusRule.OperatorMinusFails | Calculator_Vance_Shane/Calculator/src/Calculator.java:82-92 | for every operator `o`, `x o -y` fails on an empty stack: the `-` reduces `o` at once, since every operator has precedence over `-`, and only x is on the stack |
| MinusRule.BorrowedOperand | Calculator_Vance_Shane/Calculator/src/Calculator.java:64-92 | a `-` where an operand should be is applied to the operand left below it: `(x)(-y)` evaluates to x - y for all natural x and y |
| MinusRule.BorrowedOperandExample | Calculator_Vance_Shane/Calculator/src/Calculator.java:64-92 | `(1)(-3)` evaluates to -2 |
| MinusRule.ProductMinusValue | Calculator_Vance_Shane/Calculator/src/Calculator.java:320-325 | `2*-3` is normalised to `2*1+0-3`, which evaluates to -1, not to the -6 the typed text means |

## Left out

- Evaluate.ApplyOperator: division gives the exact quotient. The 34-digit
  `MathContext.DECIMAL128` rounding of the source is not modelled.
- Evaluate.ApplyOperator: a negative or fractional exponent gives the failure
  `FloatingPower` instead of a value. The source computes that case with `double`
  `Math.pow` and a string round-trip, which is floating-point arithmetic.
- Evaluate.ApplyOperator: `^` picks its path by the exponent's value. The source looks at
  its text (`-` or `.` in `toString()`). So an exponent written `2.0` takes the exact path
  here and the `double` path in the source.
- Evaluate.ApplyOperator: a zero divisor always gives `DivisionByZero`. The source tests
  for the text `"0"`, so a zero written `0.0` fails instead inside `BigDecimal.divide`.
  That is a failure either way, but of another exception class.
- Evaluate.EvalSpec: the result is a value. The `BigDecimal` scale and its `toString`
  form are not modelled. The literal parse follows the rule "digits with at most one point
  and at least one digit". The library's own parser is not modelled.
- Exception classes and messages: each throw, and each read past the end of a list or
  array, is a single failure outcome. On the evaluator side that outcome names its cause.
- Call-stack depth: the recursion of `removeOpen` and `isEquationHelper` is modelled as
  loops. Stack overflow on very long input is not modelled.
- Normalize.ConvertToProperExpression: the model keeps the unary-minus rule as written,
  quirk included (see Findings). So no idempotence of the normaliser is claimed:
  `2-(3)` → `20-(3)` → `200-(3)` (`SubtractBracketAsWritten`, `GluedAgain`).
- Normalize.MinusAfterProductExample: the `1+0-` rewrite of a minus after `*` or `/` is
  kept as written. `2*-3` becomes `2*1+0-3`, which evaluates to -1 where the typed text means
  -6 (`ProductMinusValue`). No corrected rule is modelled, because the code does not show
  which rewrite was meant.
- Normalize.NormalizedExplicitProducts: the explicit `*` is decided on the text with its
  spaces, and the spaces are dropped only afterwards. So the property holds only for text
  without spaces; `2 (3)` comes out as `2(3)` (`SpacedProductExample`).
- Expressions.EvalMeaning: the reference trees have no unary minus and no spaces. `eval`
  has no unary minus: a `-` where an operand should be takes whatever operand is left below
  it (`(1)(-3)` gives -2, `BorrowedOperand`), and otherwise fails on an empty stack
  (`OperatorMinusFails`). The normaliser rewrites most unary minus signs, but not one after
  `^` or the third of three minus signs (`PowerMinusKept`, `TripleMinusKept`).
  The validator accepts `2^-3`, and `eval` then fails on it (`PowerMinusAccepted`,
  `PowerMinusFails`). Spaces are skipped by `eval`, but they are left out of the trees.
- The callers of `Calculator.java` (any front end) are not part of this model.

## Findings

| source | as written | input that shows it | evidently intended | confidence | as-written member | corrected member |
|---|---|---|---|---|---|---|
| Calculator_Vance_Shane/Calculator/src/Calculator.java:304 | a lone `-` followed by an open bracket becomes `0-` whatever precedes it, so after a digit the inserted `0` joins the number | `2-(3)` is rewritten to `20-(3)`, which evaluates to 17 instead of -1 | a `-` directly after a digit is already a binary minus and is left as it is | not executed | MinusRule.SubtractBracketAsWritten | MinusRule.IntendedMinusToken |

The normaliser and the evaluator above keep the rule as written, so that the model says
what the source does. `MinusRule` holds the corrected rule and the corrected normaliser
built on it (`IntendedNormalized`). It proves three things:

- the corrected rule passes a `-` after a digit through unchanged;
- it agrees with the source on every text where no `-` follows a digit
  (`IntendedNormalizedAgrees`);
- `2-(3)` then stays `2-(3)`, whose value is -1 (`TypedValue`), where the rewritten `20-(3)` is 17 (`GluedValue`).
