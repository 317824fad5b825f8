/** The unary-minus rule of convertToProperExpression, as written and as evidently intended.
    As written, a `-` that is followed by an open bracket becomes `0-` whatever precedes it,
    so after a digit the inserted `0` is glued onto the number: `2-(3)` becomes `20-(3)`. The
    intended rule leaves a `-` after a digit alone, since it is already a binary minus. The
    rule also lets some minus signs through unchanged. eval has no unary minus, so it applies
    such a minus to an operand left below it, or fails when there is none. A minus after `*`
    is rewritten to `1+0-`, which changes the value. */
module MinusRule {
  import opened Chars
  import opened Outcomes
  import opened Collapse
  import opened Normalize
  import opened Evaluate
  import opened Expressions
  import opened Validate

  /** The token for a lone, non-final `-` once a `-` directly after a digit is recognised as
      a binary minus. */
  function IntendedMinusToken(c: seq<char>, i: nat): (t: string)
    requires i + 1 < |c|
    ensures i > 0 && IsOperand(c[i - 1]) ==> t == "-"
    ensures !(i > 0 && IsOperand(c[i - 1])) ==> t == MinusToken(c, i)
  {
    if i > 0 && (c[i - 1] == '*' || c[i - 1] == '/') then "1+0-"
    else if i > 0 && IsClose(c[i - 1]) then "+0-"
    else if i > 0 && IsOperand(c[i - 1]) then "-"
    else if i == 0 || c[i - 1] == '+' || IsOpen(c[i + 1]) || IsOpen(c[i - 1]) then "0-"
    else "-"
  }

  /** The rewriting rules with the intended minus rule; every other rule is unchanged. */
  function IntendedGroupAt(c: seq<char>, i: nat): (g: Option<Group>)
    requires i < |c|
    ensures g.Some? ==> 1 <= g.value.width && i + g.value.width <= |c|
  {
    if i + 1 < |c| && c[i] == '-' && c[i + 1] != '-' then Some(Group([IntendedMinusToken(c, i)], 1))
    else GroupAt(c, i)
  }

  function IntendedTokensFrom(c: seq<char>, i: nat): Option<seq<string>>
    requires i <= |c|
    decreases |c| - i
  {
    if i == |c| then Some([])
    else match IntendedGroupAt(c, i)
      case None => None
      case Some(g) =>
        match IntendedTokensFrom(c, i + g.width)
        case None => None
        case Some(rest) => Some(g.tokens + rest)
  }

  function IntendedNormalized(e: string): Option<string>
  {
    match Collapsed(GenericAll(e))
    case None => None
    case Some(c) =>
      match IntendedTokensFrom(c, 0)
      case None => None
      case Some(ts) => Some(Join(ts))
  }

  /** No `-` directly follows a digit. */
  predicate NoMinusAfterDigit(c: seq<char>)
  {
    forall k :: 0 < k < |c| && c[k] == '-' ==> !IsOperand(c[k - 1])
  }

  /** The two rules differ only at a `-` that directly follows a digit. */
  lemma IntendedGroupAgrees(c: seq<char>, i: nat)
    requires i < |c| && NoMinusAfterDigit(c)
    ensures IntendedGroupAt(c, i) == GroupAt(c, i)
  {
    if i + 1 < |c| && c[i] == '-' && c[i + 1] != '-' {
      assert !(i > 0 && IsOperand(c[i - 1]));
    }
  }

  /** On text where no `-` follows a digit, the corrected normaliser produces exactly the
      tokens of the one as written. */
  lemma {:induction false} IntendedTokensAgree(c: seq<char>, i: nat)
    requires i <= |c| && NoMinusAfterDigit(c)
    ensures IntendedTokensFrom(c, i) == TokensFrom(c, i)
    decreases |c| - i
  {
    if i < |c| {
      IntendedGroupAgrees(c, i);
      if GroupAt(c, i).Some? {
        IntendedTokensAgree(c, i + GroupAt(c, i).value.width);
      }
    }
  }

  /** Wherever the collapsed text has no `-` directly after a digit, the corrected
      normaliser agrees with the one as written. */
  lemma IntendedNormalizedAgrees(e: string)
    requires Collapsed(GenericAll(e)).None? || NoMinusAfterDigit(Collapsed(GenericAll(e)).value)
    ensures IntendedNormalized(e) == Normalized(e)
  {
    var g := GenericAll(e);
    if Collapsed(g).Some? {
      IntendedTokensAgree(Collapsed(g).value, 0);
    }
  }

  lemma IntendedTokensStep(c: seq<char>, i: nat, g: Group, rest: seq<string>)
    requires i < |c| && IntendedGroupAt(c, i) == Some(g)
    requires i + g.width <= |c| && IntendedTokensFrom(c, i + g.width) == Some(rest)
    ensures IntendedTokensFrom(c, i) == Some(g.tokens + rest)
  {
  }

  /** The tokens of `2-(3)` up to the minus, which is rewritten to `minus`. */
  lemma SubtractBracketJoin(minus: string)
    requires minus != " "
    ensures Join(["2"] + ([minus] + (["("] + (["3"] + ([")"] + []))))) == "2" + minus + "(3)"
  {
    var ts := ["2"] + ([minus] + (["("] + (["3"] + ([")"] + []))));
    assert ts == ["2"] + ([minus] + (["("] + (["3"] + [")"])));
    JoinWithoutSpaces(ts);
    ConcatCons("2", [minus] + (["("] + (["3"] + [")"])));
    ConcatCons(minus, ["("] + (["3"] + [")"]));
    ConcatCons("(", ["3"] + [")"]);
    ConcatCons("3", [")"]);
    ConcatOne(")");
    assert "2" + (minus + ("(" + ("3" + ")"))) == "2" + minus + "(3)";
  }

  /** As written, subtracting a bracketed operand from a number gains a digit: `2-(3)` is
      rewritten to `20-(3)`. */
  lemma SubtractBracketAsWritten()
    ensures Normalized("2-(3)") == Some("20-(3)")
  {
    var c := "2-(3)";
    assert GenericAll(c) == c;
    assert NoEmptyPair(c);
    TokensStep(c, 4, Group([")"], 1), []);
    TokensStep(c, 3, Group(["3"], 1), [")"] + []);
    TokensStep(c, 2, Group(["("], 1), ["3"] + ([")"] + []));
    assert MinusToken(c, 1) == "0-";
    TokensStep(c, 1, Group(["0-"], 1), ["("] + (["3"] + ([")"] + [])));
    TokensStep(c, 0, Group(["2"], 1), ["0-"] + (["("] + (["3"] + ([")"] + []))));
    SubtractBracketJoin("0-");
    assert "2" + "0-" + "(3)" == "20-(3)";
    assert Collapsed(GenericAll(c)) == Some(c);
  }

  /** The tokens of `20-(3)`, whose minus is rewritten to `0-` once more. */
  lemma GluedAgainTokens()
    ensures TokensFrom("20-(3)", 0) == Some(["2", "0", "0-", "(", "3", ")"])
  {
    var c := "20-(3)";
    TokensStep(c, 5, Group([")"], 1), []);
    TokensStep(c, 4, Group(["3"], 1), [")"] + []);
    TokensStep(c, 3, Group(["("], 1), ["3"] + ([")"] + []));
    assert MinusToken(c, 2) == "0-";
    TokensStep(c, 2, Group(["0-"], 1), ["("] + (["3"] + ([")"] + [])));
    TokensStep(c, 1, Group(["0"], 1), ["0-"] + (["("] + (["3"] + ([")"] + []))));
    TokensStep(c, 0, Group(["2"], 1), ["0"] + (["0-"] + (["("] + (["3"] + ([")"] + [])))));
    assert ["2"] + (["0"] + (["0-"] + (["("] + (["3"] + ([")"] + [])))))
        == ["2", "0", "0-", "(", "3", ")"];
  }

  lemma GluedAgainJoin()
    ensures var ts := ["2", "0", "0-", "(", "3", ")"];
      Concat(ts) == "200-(3)" && forall j :: 0 <= j < |ts| ==> ts[j] != " "
  {
    var ts := ["2", "0", "0-", "(", "3", ")"];
    assert ts == ["2"] + (["0"] + (["0-"] + (["("] + (["3"] + [")"]))));
    ConcatCons("2", ["0"] + (["0-"] + (["("] + (["3"] + [")"]))));
    ConcatCons("0", ["0-"] + (["("] + (["3"] + [")"])));
    ConcatCons("0-", ["("] + (["3"] + [")"]));
    ConcatCons("(", ["3"] + [")"]);
    ConcatCons("3", [")"]);
    ConcatOne(")");
    assert "2" + ("0" + ("0-" + ("(" + ("3" + ")")))) == "200-(3)";
  }

  /** Normalising the rewritten text glues on another zero, so the normaliser as written is
      not idempotent: `2-(3)` becomes `20-(3)` and then `200-(3)`. */
  lemma GluedAgain()
    ensures Normalized("20-(3)") == Some("200-(3)")
  {
    var c := "20-(3)";
    assert GenericAll(c) == c && NoEmptyPair(c);
    GluedAgainTokens();
    GluedAgainJoin();
    NormalizedFromText(c, c, ["2", "0", "0-", "(", "3", ")"], "200-(3)");
  }

  /** The rewritten text evaluates to 17. */
  lemma GluedValue()
    ensures EvalSpec("20-(3)") == Ok(17.0)
  {
    var n20, n3 := Numeral(20), Numeral(3);
    assert n20 == "20" && n3 == "3";
    assert "20-(3)" == n20 + ['-'] + "(" + n3 + ")";
    EvalOperandBracketed(20, '-', 3);
  }

  /** The text as typed evaluates to -1. */
  lemma TypedValue()
    ensures EvalSpec("2-(3)") == Ok(-1.0)
  {
    var n2, n3 := Numeral(2), Numeral(3);
    assert n2 == "2" && n3 == "3";
    assert "2-(3)" == n2 + ['-'] + "(" + n3 + ")";
    EvalOperandBracketed(2, '-', 3);
  }

  /** With the intended rule `2-(3)` is left as it is, so it evaluates to -1. */
  lemma SubtractBracketIntended()
    ensures IntendedNormalized("2-(3)") == Some("2-(3)")
  {
    var c := "2-(3)";
    assert GenericAll(c) == c;
    assert NoEmptyPair(c);
    IntendedTokensStep(c, 4, Group([")"], 1), []);
    IntendedTokensStep(c, 3, Group(["3"], 1), [")"] + []);
    IntendedTokensStep(c, 2, Group(["("], 1), ["3"] + ([")"] + []));
    IntendedTokensStep(c, 1, Group(["-"], 1), ["("] + (["3"] + ([")"] + [])));
    IntendedTokensStep(c, 0, Group(["2"], 1), ["-"] + (["("] + (["3"] + ([")"] + []))));
    SubtractBracketJoin("-");
    assert "2" + "-" + "(3)" == "2-(3)";
    assert Collapsed(GenericAll(c)) == Some(c);
  }

  /** After `^` none of the rule's branches applies, so the minus is passed through as it is. */
  lemma PowerMinusKept()
    ensures Normalized("2^-3") == Some("2^-3")
  {
    var e := "2^-3";
    assert GenericAll(e) == e && NoEmptyPair(e);
    assert MinusToken(e, 2) == "-";
    TokensStep(e, 3, Group(["3"], 1), []);
    TokensStep(e, 2, Group(["-"], 1), ["3"] + []);
    TokensStep(e, 1, Group(["^"], 1), ["-"] + (["3"] + []));
    TokensStep(e, 0, Group(["2"], 1), ["^"] + (["-"] + (["3"] + [])));
    var ts := ["2"] + (["^"] + (["-"] + (["3"] + [])));
    assert ts == ["2"] + (["^"] + (["-"] + ["3"]));
    NormalizedFromTokens(e, ts);
    ConcatCons("2", ["^"] + (["-"] + ["3"]));
    ConcatCons("^", ["-"] + ["3"]);
    ConcatCons("-", ["3"]);
    ConcatOne("3");
    assert "2" + ("^" + ("-" + "3")) == "2^-3";
  }

  /** Of three minus signs the first two become `+` and the third is passed through. */
  lemma TripleMinusKept()
    ensures Normalized("1---2") == Some("1+-2")
  {
    var e := "1---2";
    assert GenericAll(e) == e && NoEmptyPair(e);
    assert MinusToken(e, 3) == "-";
    TokensStep(e, 4, Group(["2"], 1), []);
    TokensStep(e, 3, Group(["-"], 1), ["2"] + []);
    TokensStep(e, 1, Group(["+"], 2), ["-"] + (["2"] + []));
    TokensStep(e, 0, Group(["1"], 1), ["+"] + (["-"] + (["2"] + [])));
    var ts := ["1"] + (["+"] + (["-"] + (["2"] + [])));
    assert ts == ["1"] + (["+"] + (["-"] + ["2"]));
    NormalizedFromTokens(e, ts);
    ConcatCons("1", ["+"] + (["-"] + ["2"]));
    ConcatCons("+", ["-"] + ["2"]);
    ConcatCons("-", ["2"]);
    ConcatOne("2");
    assert "1" + ("+" + ("-" + "2")) == "1+-2";
  }

  /** The validator accepts a minus directly after `^`. */
  lemma PowerMinusAccepted()
    ensures IsEquationSpec("2^-3") == Some(true)
  {
    var e := "2^-3";
    assert ScanTo(e, 1) == Running([], true);
    assert ScanTo(e, 2) == Running([], true);
    assert ScanTo(e, 3) == Running([], true);
    assert ScanTo(e, 4) == Running([], true);
  }

  /** The tokens of `x o -y`. */
  lemma OperatorMinusTokens(x: nat, o: char, y: nat)
    requires IsOperator(o)
    ensures Lex(Numeral(x) + ([o] + (['-'] + Numeral(y))))
         == [Literal(Numeral(x)), Symbol(o), Symbol('-'), Literal(Numeral(y))]
  {
    ClassesDisjoint(o);
    LexNumeral(y, "");
    assert Numeral(y) + "" == Numeral(y);
    LexSymbolFirst('-', Numeral(y));
    LexSymbolFirst(o, ['-'] + Numeral(y));
    LexNumeral(x, [o] + (['-'] + Numeral(y)));
  }

  lemma OperatorMinusRun(x: nat, o: char, y: nat)
    requires IsOperator(o)
    ensures Run(Stacks([], []), [Literal(Numeral(x)), Symbol(o), Symbol('-'), Literal(Numeral(y))])
         == Err(EmptyStack)
  {
    var ts := [Literal(Numeral(x)), Symbol(o), Symbol('-'), Literal(Numeral(y))];
    ClassesDisjoint(o);
    var s0, s1, s2 := Stacks([], []), Stacks([x as real], []), Stacks([x as real], [o]);
    StepNumeral(s0, x);
    assert [] + [x as real] == [x as real];
    assert [] + [o] == [o];
    assert Step(s1, Symbol(o)) == Ok(s2);
    assert HasPrecedence('-', o);
    assert Step(s2, Symbol('-')) == Err(EmptyStack);
    RunCons(s0, ts[0], ts[1..]);
    RunCons(s1, ts[1], ts[2..]);
    RunCons(s2, ts[2], ts[3..]);
  }

  /** A minus directly after an operator reduces that operator at once, since every operator
      has precedence over `-`; with a single operand on the stack, evaluation fails. */
  lemma OperatorMinusFails(x: nat, o: char, y: nat)
    requires IsOperator(o)
    ensures EvalSpec(Numeral(x) + ([o] + (['-'] + Numeral(y)))) == Err(EmptyStack)
  {
    OperatorMinusTokens(x, o, y);
    OperatorMinusRun(x, o, y);
  }

  /** `2^-3`, which the validator accepts, fails in the evaluator. */
  lemma PowerMinusFails()
    ensures EvalSpec("2^-3") == Err(EmptyStack)
  {
    assert Numeral(2) == "2" && Numeral(3) == "3";
    assert "2^-3" == Numeral(2) + (['^'] + (['-'] + Numeral(3)));
    OperatorMinusFails(2, '^', 3);
  }

  /** The text `(x)(-y)`. */
  function Borrowing(x: nat, y: nat): string
  {
    ['('] + (Numeral(x) + ([')'] + (['('] + (['-'] + (Numeral(y) + [')'])))))
  }

  /** The tokens of `(-y)`. */
  lemma BorrowingTail(y: nat)
    ensures Lex(['('] + (['-'] + (Numeral(y) + [')'])))
         == [Symbol('('), Symbol('-'), Literal(Numeral(y)), Symbol(')')]
  {
    var r6 := [')'];
    var r5 := Numeral(y) + r6;
    var r4 := ['-'] + r5;
    assert r6 == [')'] + [];
    LexSymbolFirst(')', []);
    LexNumeral(y, r6);
    LexSymbolFirst('-', r5);
    LexSymbolFirst('(', r4);
  }

  lemma BorrowingTokens(x: nat, y: nat)
    ensures Lex(Borrowing(x, y))
         == [Symbol('('), Literal(Numeral(x)), Symbol(')'), Symbol('('), Symbol('-'),
             Literal(Numeral(y)), Symbol(')')]
  {
    var r3 := ['('] + (['-'] + (Numeral(y) + [')']));
    var r2 := [')'] + r3;
    var r1 := Numeral(x) + r2;
    BorrowingTail(y);
    LexSymbolFirst(')', r3);
    LexNumeral(x, r2);
    LexSymbolFirst('(', r1);
  }

  /** Running `(x)(`: x is left on the operand stack after its bracket closes. */
  lemma BorrowingOpen(x: nat)
    ensures Run(Stacks([], []), [Symbol('('), Literal(Numeral(x)), Symbol(')'), Symbol('(')])
         == Ok(Stacks([x as real], ['(']))
  {
    var ts := [Symbol('('), Literal(Numeral(x)), Symbol(')'), Symbol('(')];
    var s0, s1 := Stacks([], []), Stacks([], ['(']);
    var s2, s3 := Stacks([x as real], ['(']), Stacks([x as real], []);
    assert [] + ['('] == ['('];
    assert Step(s0, ts[0]) == Ok(s1);
    StepNumeral(s1, x);
    assert [] + [x as real] == [x as real];
    assert Step(s2, ts[2]) == Ok(s3);
    assert Step(s3, ts[3]) == Ok(s2);
    RunCons(s0, ts[0], ts[1..]);
    RunCons(s1, ts[1], ts[2..]);
    RunCons(s2, ts[2], ts[3..]);
    RunCons(s3, ts[3], []);
    assert ts[3..] == [ts[3]] + [];
  }

  /** Running `-y)` on that stack: the `-` is pushed above the `(`, and the close bracket
      applies it to the x below and to y. */
  lemma BorrowingClose(x: nat, y: nat)
    ensures Run(Stacks([x as real], ['(']), [Symbol('-'), Literal(Numeral(y)), Symbol(')')])
         == Ok(Stacks([x as real - y as real], []))
  {
    var X, Y := x as real, y as real;
    var ts := [Symbol('-'), Literal(Numeral(y)), Symbol(')')];
    var s2, s5 := Stacks([X], ['(']), Stacks([X], ['(', '-']);
    var s6, s7 := Stacks([X, Y], ['(', '-']), Stacks([X - Y], []);
    assert !HasPrecedence('-', '(') && ['('] + ['-'] == ['(', '-'];
    assert Step(s2, ts[0]) == Ok(s5);
    StepNumeral(s5, y);
    assert [X] + [Y] == [X, Y];
    assert Reduce(s6) == Ok(Stacks([X - Y], ['(']));
    assert DropLast(['(']) == [];
    assert CloseBracket(Stacks([X - Y], ['('])) == Ok(s7);
    assert Step(s6, ts[2]) == Ok(s7);
    RunCons(s2, ts[0], ts[1..]);
    RunCons(s5, ts[1], ts[2..]);
    RunCons(s6, ts[2], []);
    assert ts[2..] == [ts[2]] + [];
  }

  lemma BorrowingRun(x: nat, y: nat)
    ensures Run(Stacks([], []),
                [Symbol('('), Literal(Numeral(x)), Symbol(')'), Symbol('('), Symbol('-'),
                 Literal(Numeral(y)), Symbol(')')])
         == Ok(Stacks([x as real - y as real], []))
  {
    var a := [Symbol('('), Literal(Numeral(x)), Symbol(')'), Symbol('(')];
    var b := [Symbol('-'), Literal(Numeral(y)), Symbol(')')];
    assert a + b == [Symbol('('), Literal(Numeral(x)), Symbol(')'), Symbol('('), Symbol('-'),
                     Literal(Numeral(y)), Symbol(')')];
    BorrowingOpen(x);
    BorrowingClose(x, y);
    RunAppend(Stacks([], []), a, b);
  }

  /** A minus where an operand should be is not always a failure: it is applied to whatever
      operand is left below it, so `(x)(-y)` evaluates to x - y. */
  lemma BorrowedOperand(x: nat, y: nat)
    ensures EvalSpec(Borrowing(x, y)) == Ok(x as real - y as real)
  {
    BorrowingTokens(x, y);
    BorrowingRun(x, y);
    var d := Stacks([x as real - y as real], []);
    assert Drain(d) == Ok(d);
  }

  /** `(1)(-3)` evaluates to -2. */
  lemma BorrowedOperandExample()
    ensures EvalSpec("(1)(-3)") == Ok(-2.0)
  {
    assert Numeral(1) == "1" && Numeral(3) == "3";
    assert "(1)(-3)" == Borrowing(1, 3);
    BorrowedOperand(1, 3);
  }

  /** `2*1+0-3` as a tree: the product, then the sum, then the difference. */
  lemma ProductMinusShaped()
    ensures var e := Bin('-', Bin('+', Bin('*', Num(2), Num(1)), Num(0)), Num(3));
      WellShaped(e) && Meaning(e) == Ok(-1.0)
  {
    var p := Bin('*', Num(2), Num(1));
    var q := Bin('+', p, Num(0));
    NumShaped(2);
    NumShaped(1);
    NumShaped(0);
    NumShaped(3);
    MeaningBin('*', Num(2), Num(1));
    MeaningBin('+', p, Num(0));
    MeaningBin('-', q, Num(3));
    assert WellShaped(p) && TopTier(p) == 2 && Meaning(p) == Ok(2.0);
    assert WellShaped(q) && TopTier(q) == 1 && Meaning(q) == Ok(2.0);
  }

  lemma ProductMinusPrint()
    ensures Print(Bin('-', Bin('+', Bin('*', Num(2), Num(1)), Num(0)), Num(3))) == "2*1+0-3"
  {
    assert Numeral(2) == "2" && Numeral(1) == "1" && Numeral(0) == "0" && Numeral(3) == "3";
    assert Print(Bin('*', Num(2), Num(1))) == "2*1";
    assert Print(Bin('+', Bin('*', Num(2), Num(1)), Num(0))) == "2*1+0";
  }

  /** As written, a minus after `*` is rewritten so that `2*-3` becomes `2*1+0-3`, which
      evaluates to -1 where the typed text means -6. */
  lemma ProductMinusValue()
    ensures Normalized("2*-3") == Some("2*1+0-3")
    ensures EvalSpec("2*1+0-3") == Ok(-1.0)
  {
    MinusAfterProductExample();
    var e := Bin('-', Bin('+', Bin('*', Num(2), Num(1)), Num(0)), Num(3));
    ProductMinusShaped();
    ProductMinusPrint();
    EvalText(e, "2*1+0-3");
  }
}
