/** eval, hasPrecedence and applyOperator: infix evaluation with an operand stack and an
    operator stack that reduces eagerly by precedence. Values are exact rationals. */
module Evaluate {
  import opened Chars
  import opened Outcomes

  /** Why eval throws: a literal that does not parse, a zero divisor, an exponent the exact
      power rejects, a pop or peek on an empty stack, or an exponent that sends the source to
      its floating-point path. */
  datatype Failure = NumberFormat | DivisionByZero | InvalidExponent | EmptyStack | FloatingPower

  /** A character a literal is made of: a digit or the decimal point. */
  predicate IsNumberChar(ch: char)
  {
    IsOperand(ch) || IsDecimal(ch)
  }

  predicate AllNumberChars(s: string)
  {
    forall k :: 0 <= k < |s| ==> IsNumberChar(s[k])
  }

  predicate AllDigits(s: string)
  {
    forall k :: 0 <= k < |s| ==> IsOperand(s[k])
  }

  function DigitChar(d: nat): (ch: char)
    requires d < 10
    ensures IsOperand(ch)
  {
    ('0' as int + d) as char
  }

  function DigitValue(ch: char): (d: nat)
    requires IsOperand(ch)
    ensures d < 10 && DigitChar(d) == ch
  {
    ch as int - '0' as int
  }

  /** The number a string of decimal digits denotes. */
  function DigitsValue(d: string): nat
    requires AllDigits(d)
  {
    if d == [] then 0 else DigitsValue(d[..|d| - 1]) * 10 + DigitValue(d[|d| - 1])
  }

  function Pow10(n: nat): (p: nat)
    ensures p > 0
  {
    if n == 0 then 1 else 10 * Pow10(n - 1)
  }

  /** The position of the first decimal point, or |s| when there is none. */
  function DotIndex(s: string): (k: nat)
    ensures k <= |s|
    ensures k < |s| ==> IsDecimal(s[k])
    ensures forall j :: 0 <= j < k ==> !IsDecimal(s[j])
  {
    if s == [] then 0 else if IsDecimal(s[0]) then 0 else 1 + DotIndex(s[1..])
  }

  /** A literal the source accepts: digits with at most one decimal point, and at least one
      digit. */
  predicate WellFormedLiteral(s: string)
  {
    && AllNumberChars(s)
    && (exists k :: 0 <= k < |s| && IsOperand(s[k]))
    && (forall j, k :: 0 <= j < k < |s| && IsDecimal(s[j]) ==> !IsDecimal(s[k]))
  }

  /** new BigDecimal(s): the digits before the point give the whole part and those after it
      the fraction. */
  function ParseLiteral(s: string): (r: Result<real, Failure>)
    ensures r.Ok? ==> r.value >= 0.0
  {
    if !AllNumberChars(s) then Err(NumberFormat)
    else
      var p := DotIndex(s);
      var whole := s[..p];
      var frac := if p < |s| then s[p + 1..] else [];
      if DotIndex(frac) < |frac| || (whole == [] && frac == []) then Err(NumberFormat)
      else Ok(DigitsValue(whole) as real + DigitsValue(frac) as real / Pow10(|frac|) as real)
  }

  /** The literal parse accepts exactly the well-formed literals. */
  lemma ParseLiteralAccepts(s: string)
    ensures ParseLiteral(s).Ok? <==> WellFormedLiteral(s)
  {
    if AllNumberChars(s) {
      var p := DotIndex(s);
      var frac := if p < |s| then s[p + 1..] else [];
      if ParseLiteral(s).Ok? {
        assert exists k :: 0 <= k < |s| && IsOperand(s[k]) by {
          if p > 0 {
            assert IsOperand(s[0]);
          } else {
            assert frac != [] && IsOperand(frac[0]);
            assert IsOperand(s[p + 1]);
          }
        }
        forall j, k | 0 <= j < k < |s| && IsDecimal(s[j])
          ensures !IsDecimal(s[k])
        {
          assert j == p;
          assert s[k] == frac[k - p - 1];
        }
      }
    }
  }

  /** The decimal text of n, without leading zeros. */
  function Numeral(n: nat): (s: string)
    ensures |s| > 0 && AllDigits(s)
  {
    if n < 10 then [DigitChar(n)] else Numeral(n / 10) + [DigitChar(n % 10)]
  }

  lemma {:induction false} NumeralValue(n: nat)
    ensures DigitsValue(Numeral(n)) == n
  {
    var s := Numeral(n);
    if n < 10 {
      assert s[..0] == [];
    } else {
      assert s[..|s| - 1] == Numeral(n / 10);
      NumeralValue(n / 10);
    }
  }

  /** Printing a natural number and parsing it back gives the number. */
  lemma ParseNumeral(n: nat)
    ensures ParseLiteral(Numeral(n)) == Ok(n as real)
  {
    var s := Numeral(n);
    assert DotIndex(s) == |s|;
    assert s[..|s|] == s;
    NumeralValue(n);
    assert DigitsValue([]) == 0;
  }

  /** a raised to the natural power n. */
  function Pow(a: real, n: nat): real
  {
    if n == 0 then 1.0 else a * Pow(a, n - 1)
  }

  lemma {:induction false} PowAdd(a: real, m: nat, n: nat)
    ensures Pow(a, m + n) == Pow(a, m) * Pow(a, n)
    decreases m
  {
    if m > 0 {
      PowAdd(a, m - 1, n);
    }
  }

  /** The exponent is an integer the exact power path takes: no sign and no fraction. */
  predicate IsWholeNumber(b: real)
  {
    b >= 0.0 && b == b.Floor as real
  }

  /** The largest exponent BigDecimal.pow accepts. */
  const MaxExponent := 999999999

  /** applyOperator(op, b, a): b is the operand popped first, so it is the right-hand side. */
  function ApplyOperator(op: char, b: real, a: real): (r: Result<real, Failure>)
    ensures r.Err? <==> (op == '/' && b == 0.0)
                        || (op == '^' && !(IsWholeNumber(b) && b <= MaxExponent as real))
    ensures op == '/' && r.Ok? ==> r.value * b == a
    ensures !IsOperator(op) ==> r == Ok(0.0)
  {
    match op
    case '+' => Ok(a + b)
    case '-' => Ok(a - b)
    case '*' => Ok(a * b)
    case '^' =>
      if !IsWholeNumber(b) then Err(FloatingPower)
      else if b.Floor > MaxExponent then Err(InvalidExponent)
      else Ok(Pow(a, b.Floor))
    case '/' => if b == 0.0 then Err(DivisionByZero) else Ok(a / b)
    case _ => Ok(0.0)
  }

  /** The precedence tier of an operator: `+` and `-` below `*`, `/` and `^`. */
  function Tier(op: char): nat
    requires IsOperator(op)
  {
    if op == '+' || op == '-' then 1 else 2
  }

  /** hasPrecedence(c, top): whether the incoming operator c first reduces the operator top. */
  function HasPrecedence(c: char, top: char): (reduce: bool)
    ensures IsOperator(c) && IsOperator(top) ==> (reduce <==> Tier(c) <= Tier(top))
    ensures IsOpen(top) ==> !reduce
  {
    !(IsOpen(top) || IsClose(top) || ((c == '*' || c == '/' || c == '^') && (top == '+' || top == '-')))
  }

  /** The two stacks of eval; the top of each is at the end. */
  datatype Stacks = Stacks(operands: seq<real>, operators: seq<char>)

  /** One reduction: pop an operator, pop the right and then the left operand, and push the
      result of applying the operator. */
  function Reduce(st: Stacks): (r: Result<Stacks, Failure>)
    requires |st.operators| > 0
    ensures r.Ok? ==> r.value.operators == DropLast(st.operators)
    ensures r.Ok? ==> && |st.operands| >= 2 && |r.value.operands| + 1 == |st.operands|
                      && r.value.operands[..|r.value.operands| - 1] == st.operands[..|st.operands| - 2]
  {
    var ops, vals := st.operators, st.operands;
    if |vals| < 2 then Err(EmptyStack)
    else match ApplyOperator(ops[|ops| - 1], vals[|vals| - 1], vals[|vals| - 2])
      case Err(f) => Err(f)
      case Ok(v) => Ok(Stacks(vals[..|vals| - 2] + [v], DropLast(ops)))
  }

  /** A close bracket: reduce until the top is `(`, then discard it. */
  function CloseBracket(st: Stacks): (r: Result<Stacks, Failure>)
    ensures r.Ok? ==> && |r.value.operators| < |st.operators|
                      && r.value.operators == st.operators[..|r.value.operators|]
                      && st.operators[|r.value.operators|] == '('
                      && (forall j :: |r.value.operators| < j < |st.operators| ==> st.operators[j] != '(')
                      && |st.operands| - |r.value.operands| == |st.operators| - |r.value.operators| - 1
    decreases |st.operators|
  {
    if st.operators == [] then Err(EmptyStack)
    else if st.operators[|st.operators| - 1] == '(' then
      Ok(Stacks(st.operands, DropLast(st.operators)))
    else match Reduce(st)
      case Err(f) => Err(f)
      case Ok(s) => CloseBracket(s)
  }

  /** An incoming operator: reduce while the top has precedence over it, then push it. */
  function PushOperator(st: Stacks, ch: char): (r: Result<Stacks, Failure>)
    ensures r.Ok? ==> && |r.value.operators| > 0
                      && r.value.operators[|r.value.operators| - 1] == ch
                      && var kept := |r.value.operators| - 1;
                      && kept <= |st.operators|
                      && r.value.operators[..kept] == st.operators[..kept]
                      && (kept > 0 ==> !HasPrecedence(ch, st.operators[kept - 1]))
                      && (forall j :: kept <= j < |st.operators| ==> HasPrecedence(ch, st.operators[j]))
    decreases |st.operators|
  {
    if st.operators != [] && HasPrecedence(ch, st.operators[|st.operators| - 1]) then
      match Reduce(st)
      case Err(f) => Err(f)
      case Ok(s) => PushOperator(s, ch)
    else Ok(Stacks(st.operands, st.operators + [ch]))
  }

  /** The end of eval: reduce until the operator stack is empty. */
  function Drain(st: Stacks): (r: Result<Stacks, Failure>)
    ensures r.Ok? ==> r.value.operators == [] && |r.value.operands| + |st.operators| == |st.operands|
    decreases |st.operators|
  {
    if st.operators == [] then Ok(st)
    else match Reduce(st)
      case Err(f) => Err(f)
      case Ok(s) => Drain(s)
  }

  /** What eval reads: a maximal run of digits and points, or any other single character. */
  datatype Token = Literal(text: string) | Symbol(ch: char)

  /** The length of the run of digits and points at the start of s. */
  function RunLength(s: string): (n: nat)
    ensures n <= |s|
    ensures forall k :: 0 <= k < n ==> IsNumberChar(s[k])
    ensures n < |s| ==> !IsNumberChar(s[n])
  {
    if s == [] || !IsNumberChar(s[0]) then 0 else 1 + RunLength(s[1..])
  }

  function Lex(s: string): seq<Token>
    decreases |s|
  {
    if s == [] then []
    else if IsNumberChar(s[0]) then
      var n := RunLength(s);
      [Literal(s[..n])] + Lex(s[n..])
    else [Symbol(s[0])] + Lex(s[1..])
  }

  /** One token of eval's main loop. */
  function Step(st: Stacks, t: Token): Result<Stacks, Failure>
  {
    match t
    case Literal(text) =>
      (match ParseLiteral(text)
       case Err(f) => Err(f)
       case Ok(v) => Ok(Stacks(st.operands + [v], st.operators)))
    case Symbol(ch) =>
      if IsOpen(ch) then Ok(Stacks(st.operands, st.operators + [ch]))
      else if IsClose(ch) then CloseBracket(st)
      else if IsOperator(ch) then PushOperator(st, ch)
      else Ok(st)
  }

  function Run(st: Stacks, ts: seq<Token>): Result<Stacks, Failure>
    decreases |ts|
  {
    if ts == [] then Ok(st)
    else match Step(st, ts[0])
      case Err(f) => Err(f)
      case Ok(s) => Run(s, ts[1..])
  }

  /** What eval returns for `e`: the top of the operand stack once every operator is applied. */
  function EvalSpec(e: string): Result<real, Failure>
  {
    match Run(Stacks([], []), Lex(e))
    case Err(f) => Err(f)
    case Ok(st) =>
      match Drain(st)
      case Err(f) => Err(f)
      case Ok(d) => if d.operands == [] then Err(EmptyStack) else Ok(d.operands[|d.operands| - 1])
  }

  lemma RunCons(st: Stacks, t: Token, ts: seq<Token>)
    ensures Step(st, t).Err? ==> Run(st, [t] + ts) == Err(Step(st, t).error)
    ensures Step(st, t).Ok? ==> Run(st, [t] + ts) == Run(Step(st, t).value, ts)
  {
    assert ([t] + ts)[0] == t && ([t] + ts)[1..] == ts;
  }

  /** The text from `start` on opens with the literal that ends at `end`. */
  lemma LexLiteral(e: string, start: nat, end: nat)
    requires start < end <= |e|
    requires forall k :: start <= k < end ==> IsNumberChar(e[k])
    requires end < |e| ==> !IsNumberChar(e[end])
    ensures Lex(e[start..]) == [Literal(e[start..end])] + Lex(e[end..])
  {
    var s := e[start..];
    var n := RunLength(s);
    assert s[..n] == e[start..end];
    assert s[n..] == e[end..];
  }

  /** The text from i on opens with the single character there. */
  lemma LexSymbol(e: string, i: nat)
    requires i < |e| && !IsNumberChar(e[i])
    ensures Lex(e[i..]) == [Symbol(e[i])] + Lex(e[i + 1..])
  {
    assert e[i..][1..] == e[i + 1..];
  }

  /** The loop of eval at a close bracket: apply operators until the top is `(`, then pop
      it; peeking at an empty operator stack throws. */
  method ReduceToOpen(st0: Stacks) returns (r: Result<Stacks, Failure>)
    ensures r == CloseBracket(st0)
  {
    var st := st0;
    while st.operators == [] || st.operators[|st.operators| - 1] != '('
      invariant CloseBracket(st) == CloseBracket(st0)
      decreases |st.operators|
    {
      if st.operators == [] {
        return Err(EmptyStack);
      }
      var next := Reduce(st);
      if next.Err? {
        return Err(next.error);
      }
      st := next.value;
    }
    return Ok(Stacks(st.operands, DropLast(st.operators)));
  }

  /** The loop of eval at an operator: apply stacked operators while they have precedence
      over the incoming one, then push it. */
  method ReduceAndPush(st0: Stacks, ch: char) returns (r: Result<Stacks, Failure>)
    ensures r == PushOperator(st0, ch)
  {
    var st := st0;
    while st.operators != [] && HasPrecedence(ch, st.operators[|st.operators| - 1])
      invariant PushOperator(st, ch) == PushOperator(st0, ch)
      decreases |st.operators|
    {
      var next := Reduce(st);
      if next.Err? {
        return Err(next.error);
      }
      st := next.value;
    }
    return Ok(Stacks(st.operands, st.operators + [ch]));
  }

  /** The last loop of eval: apply the remaining operators, last pushed first. */
  method ReduceAll(st0: Stacks) returns (r: Result<Stacks, Failure>)
    ensures r == Drain(st0)
  {
    var st := st0;
    while st.operators != []
      invariant Drain(st) == Drain(st0)
      decreases |st.operators|
    {
      var next := Reduce(st);
      if next.Err? {
        return Err(next.error);
      }
      st := next.value;
    }
    return Ok(st);
  }

  /** The inner loop of eval: read the run of digits and points that starts at i. */
  method ReadLiteral(exp: string, i0: nat) returns (s: string, i: nat)
    requires i0 < |exp| && IsNumberChar(exp[i0])
    ensures i0 < i <= |exp| && s == exp[i0..i]
    ensures i < |exp| ==> !IsNumberChar(exp[i])
    ensures Lex(exp[i0..]) == [Literal(s)] + Lex(exp[i..])
  {
    s := "";
    i := i0;
    while i < |exp|
      invariant i0 <= i <= |exp|
      invariant s == exp[i0..i]
      invariant forall k :: i0 <= k < i ==> IsNumberChar(exp[k])
    {
      if IsNumberChar(exp[i]) {
        s := s + [exp[i]];
        i := i + 1;
      } else {
        break;
      }
    }
    LexLiteral(exp, i0, i);
  }

  /** The three branches of eval for a character that is not part of a literal: push an open
      bracket, reduce to the open bracket at a close bracket, reduce and push at an operator;
      any other character is skipped. */
  method HandleSymbol(st: Stacks, ch: char) returns (next: Result<Stacks, Failure>)
    ensures next == Step(st, Symbol(ch))
  {
    next := Ok(st);
    if IsOpen(ch) {
      next := Ok(Stacks(st.operands, st.operators + [ch]));
    }
    if IsClose(ch) {
      next := ReduceToOpen(st);
    }
    if IsOperator(ch) {
      next := ReduceAndPush(st, ch);
    }
  }

  /** One turn of the main loop of eval, from position i0: a run of digits and points is
      read into one literal, and the character that ends it is handled in the same turn; at
      the end of the text the index steps back so that the last digit is looked at again. */
  method Turn(exp: string, st0: Stacks, i0: nat) returns (next: Result<Stacks, Failure>, i: nat)
    requires i0 < |exp|
    ensures i0 < i <= |exp|
    ensures next.Err? ==> Run(st0, Lex(exp[i0..])) == Err(next.error)
    ensures next.Ok? ==> Run(st0, Lex(exp[i0..])) == Run(next.value, Lex(exp[i..]))
  {
    var st := st0;
    i := i0;
    ghost var j := i;
    if IsNumberChar(exp[i]) {
      var s;
      s, i := ReadLiteral(exp, i);
      RunCons(st, Literal(s), Lex(exp[i..]));
      var v := ParseLiteral(s);
      if v.Err? {
        return Err(v.error), i;
      }
      st := Stacks(st.operands + [v.value], st.operators);
      j := i;
      if i == |exp| {
        i := i - 1;
      }
    }
    var ch := exp[i];
    if j == i {
      LexSymbol(exp, i);
      RunCons(st, Symbol(ch), Lex(exp[i + 1..]));
    } else {
      assert j == |exp| && IsNumberChar(ch);
      ClassesDisjoint(ch);
    }
    next := HandleSymbol(st, ch);
    i := i + 1;
  }

  /** eval: the main loop over the text, then the loop that applies what is left on the
      operator stack, then the top of the operand stack. */
  method Eval(exp: string) returns (r: Result<real, Failure>)
    ensures r == EvalSpec(exp)
  {
    var st := Stacks([], []);
    var i := 0;
    while i < |exp|
      invariant 0 <= i <= |exp|
      invariant Run(Stacks([], []), Lex(exp)) == Run(st, Lex(exp[i..]))
    {
      var next;
      next, i := Turn(exp, st, i);
      if next.Err? {
        return Err(next.error);
      }
      st := next.value;
    }
    assert exp[i..] == [];
    var drained := ReduceAll(st);
    if drained.Err? {
      return Err(drained.error);
    }
    if drained.value.operands == [] {
      return Err(EmptyStack);
    }
    return Ok(drained.value.operands[|drained.value.operands| - 1]);
  }

  /** The operator stack under eager reduction: it holds only brackets and operators, and of
      two operators next to each other the upper one binds tighter, so above each open
      bracket at most a `+`/`-` and then a `*`, `/` or `^` wait. */
  predicate Disciplined(ops: seq<char>)
  {
    && (forall k :: 0 <= k < |ops| ==> IsOpen(ops[k]) || IsOperator(ops[k]))
    && (forall k :: 0 <= k < |ops| - 1 && IsOperator(ops[k]) && IsOperator(ops[k + 1]) ==>
          Tier(ops[k]) < Tier(ops[k + 1]))
  }

  lemma DisciplinedPrefix(ops: seq<char>, m: nat)
    requires m <= |ops| && Disciplined(ops)
    ensures Disciplined(ops[..m])
  {
    var p := ops[..m];
    assert forall k :: 0 <= k < |p| ==> p[k] == ops[k];
  }

  lemma DisciplinedPushOpen(ops: seq<char>, ch: char)
    requires Disciplined(ops) && IsOpen(ch)
    ensures Disciplined(ops + [ch])
  {
    var after := ops + [ch];
    assert forall k :: 0 <= k < |ops| ==> after[k] == ops[k];
    ClassesDisjoint(ch);
  }

  lemma DisciplinedPushOperator(ops: seq<char>, kept: nat, ch: char)
    requires Disciplined(ops) && kept <= |ops| && IsOperator(ch)
    requires kept > 0 && IsOperator(ops[kept - 1]) ==> Tier(ops[kept - 1]) < Tier(ch)
    ensures Disciplined(ops[..kept] + [ch])
  {
    var after := ops[..kept] + [ch];
    assert forall k :: 0 <= k < kept ==> after[k] == ops[k];
  }

  /** Each step of eval keeps the operator stack disciplined. */
  lemma StepDisciplined(st: Stacks, t: Token)
    requires Disciplined(st.operators) && Step(st, t).Ok?
    ensures Disciplined(Step(st, t).value.operators)
  {
    var ops := st.operators;
    if t.Symbol? {
      var ch := t.ch;
      ClassesDisjoint(ch);
      if IsOpen(ch) {
        DisciplinedPushOpen(ops, ch);
      } else if IsClose(ch) {
        var after := CloseBracket(st).value.operators;
        DisciplinedPrefix(ops, |after|);
      } else if IsOperator(ch) {
        var after := PushOperator(st, ch).value.operators;
        var kept := |after| - 1;
        assert after == ops[..kept] + [ch];
        DisciplinedPushOperator(ops, kept, ch);
      }
    }
  }

  /** The operator stack stays disciplined through any run of tokens, and so never holds
      three operators in a row. */
  lemma {:induction false} RunDisciplined(st: Stacks, ts: seq<Token>)
    requires Disciplined(st.operators) && Run(st, ts).Ok?
    ensures Disciplined(Run(st, ts).value.operators)
    ensures var ops := Run(st, ts).value.operators;
      forall k :: 0 <= k < |ops| - 2 ==> !(IsOperator(ops[k]) && IsOperator(ops[k + 1]) && IsOperator(ops[k + 2]))
    decreases |ts|
  {
    if ts != [] {
      StepDisciplined(st, ts[0]);
      RunDisciplined(Step(st, ts[0]).value, ts[1..]);
    }
  }

  /** The text of a natural number followed by something that is not part of a literal. */
  lemma LexNumeral(n: nat, rest: string)
    requires rest == [] || !IsNumberChar(rest[0])
    ensures Lex(Numeral(n) + rest) == [Literal(Numeral(n))] + Lex(rest)
  {
    var d := Numeral(n);
    var e := d + rest;
    LexLiteral(e, 0, |d|);
    assert e[0..] == e && e[0..|d|] == d && e[|d|..] == rest;
  }

  lemma LexSymbolFirst(ch: char, rest: string)
    requires !IsNumberChar(ch)
    ensures Lex([ch] + rest) == [Symbol(ch)] + Lex(rest)
  {
    assert ([ch] + rest)[1..] == rest;
  }

  /** An operand written as a result: a failure passes through, otherwise apply op to the
      left and right values. */
  function Infix(op: char, left: Result<real, Failure>, right: Result<real, Failure>): Result<real, Failure>
  {
    match left
    case Err(f) => Err(f)
    case Ok(a) =>
      match right
      case Err(f) => Err(f)
      case Ok(b) => ApplyOperator(op, b, a)
  }

  function Value(n: nat): Result<real, Failure>
  {
    Ok(n as real)
  }

  lemma StepNumeral(st: Stacks, n: nat)
    ensures Step(st, Literal(Numeral(n))) == Ok(Stacks(st.operands + [n as real], st.operators))
  {
    ParseNumeral(n);
  }

  /** The text of a natural number evaluates to that number. */
  lemma EvalNumeral(x: nat)
    ensures EvalSpec(Numeral(x)) == Value(x)
  {
    LexNumeral(x, "");
    assert Numeral(x) + "" == Numeral(x);
    var s0 := Stacks([], []);
    var s1 := Stacks([x as real], []);
    StepNumeral(s0, x);
    assert [] + [x as real] == [x as real];
    RunCons(s0, Literal(Numeral(x)), []);
    assert [Literal(Numeral(x))] + [] == [Literal(Numeral(x))];
    assert Run(s0, Lex(Numeral(x))) == Ok(s1);
    assert Drain(s1) == Ok(s1);
  }

  /** One reduction of the top two operands a (below) and b (on top) under the operator o. */
  lemma ReduceTop(vals: seq<real>, a: real, b: real, ops: seq<char>, o: char)
    ensures var r := Reduce(Stacks(vals + [a, b], ops + [o]));
      && (ApplyOperator(o, b, a).Err? ==> r == Err(ApplyOperator(o, b, a).error))
      && (ApplyOperator(o, b, a).Ok? ==> r == Ok(Stacks(vals + [ApplyOperator(o, b, a).value], ops)))
  {
    var v := vals + [a, b];
    assert v[|v| - 1] == b && v[|v| - 2] == a && v[..|v| - 2] == vals;
    assert (ops + [o])[..|ops|] == ops;
  }

  /** The tokens of `x y`, two numbers with a space between them. */
  lemma LexSpaced(x: nat, y: nat)
    ensures Lex(Numeral(x) + " " + Numeral(y)) == [Literal(Numeral(x)), Symbol(' '), Literal(Numeral(y))]
  {
    var dx, dy := Numeral(x), Numeral(y);
    var rest := " " + dy;
    assert dx + " " + dy == dx + rest;
    LexNumeral(y, "");
    assert dy + "" == dy;
    LexSymbolFirst(' ', dy);
    LexNumeral(x, rest);
  }

  /** A space between two numbers is skipped, so both end up on the operand stack. */
  lemma RunSpaced(x: nat, y: nat)
    ensures Run(Stacks([], []), [Literal(Numeral(x)), Symbol(' '), Literal(Numeral(y))])
      == Ok(Stacks([x as real, y as real], []))
  {
    var X, Y := x as real, y as real;
    var ts := [Literal(Numeral(x)), Symbol(' '), Literal(Numeral(y))];
    var s1 := Stacks([X], []);
    StepNumeral(Stacks([], []), x);
    assert [] + [X] == [X];
    assert Step(s1, Symbol(' ')) == Ok(s1);
    StepNumeral(s1, y);
    assert [X] + [Y] == [X, Y];
    RunCons(Stacks([], []), ts[0], ts[1..]);
    RunCons(s1, ts[1], ts[2..]);
    RunCons(s1, ts[2], []);
  }

  /** eval returns the top of the operand stack: operands left below it are ignored. */
  lemma EvalReturnsTop(x: nat, y: nat)
    ensures EvalSpec(Numeral(x) + " " + Numeral(y)) == Value(y)
  {
    var st := Stacks([x as real, y as real], []);
    LexSpaced(x, y);
    RunSpaced(x, y);
    assert Drain(st) == Ok(st);
  }
}
