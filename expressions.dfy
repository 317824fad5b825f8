/** eval against ordinary arithmetic: every expression over literals, the five operators and
    round brackets that is shaped by the usual precedence rules (`+`, `-` below `*`, `/`,
    `^`, every operator associating to the left) is evaluated by the two-stack machine to
    the value of its tree. */
module Expressions {
  import opened Chars
  import opened Outcomes
  import opened Evaluate

  /** The reference: a literal, a bracketed expression, or an operator over two operands. */
  datatype Expr = Lit(text: string) | Paren(inner: Expr) | Bin(op: char, left: Expr, right: Expr)

  /** The text of an expression, with no spaces and only the brackets the tree holds. */
  function Print(e: Expr): string
  {
    match e
    case Lit(s) => s
    case Paren(inner) => "(" + Print(inner) + ")"
    case Bin(o, l, r) => Print(l) + [o] + Print(r)
  }

  /** The tier at which an expression is joined at its top: literals and brackets bind
      tighter than any operator. */
  function TopTier(e: Expr): nat
  {
    match e
    case Lit(_) => 3
    case Paren(_) => 3
    case Bin(o, _, _) => if IsOperator(o) then Tier(o) else 3
  }

  /** The trees the precedence grammar sum := sum (+|-) term | term, term := term (*|/|^)
      factor | factor, factor := literal | ( sum ) gives: a left operand joins at the same
      tier or tighter, a right operand strictly tighter. */
  predicate WellShaped(e: Expr)
  {
    match e
    case Lit(s) => s != [] && AllNumberChars(s)
    case Paren(inner) => WellShaped(inner)
    case Bin(o, l, r) =>
      && IsOperator(o) && WellShaped(l) && WellShaped(r)
      && Tier(o) <= TopTier(l) && Tier(o) < TopTier(r)
  }

  /** The value of the tree: a literal parses as eval parses it, and an operator applies to
      its left and then its right value, the first failure winning. */
  function Meaning(e: Expr): Result<real, Failure>
  {
    match e
    case Lit(s) => ParseLiteral(s)
    case Paren(inner) => Meaning(inner)
    case Bin(o, l, r) => Infix(o, Meaning(l), Meaning(r))
  }

  /** The tokens eval reads for an expression. */
  function Tokens(e: Expr): seq<Token>
  {
    match e
    case Lit(s) => [Literal(s)]
    case Paren(inner) => [Symbol('(')] + Tokens(inner) + [Symbol(')')]
    case Bin(o, l, r) => Tokens(l) + [Symbol(o)] + Tokens(r)
  }

  /** The printed text lexes into the tree's tokens, whatever non-literal text follows. */
  lemma {:induction false} LexPrint(e: Expr, rest: string)
    requires WellShaped(e)
    requires rest == [] || !IsNumberChar(rest[0])
    ensures Lex(Print(e) + rest) == Tokens(e) + Lex(rest)
    decreases e
  {
    match e
    case Lit(s) => LexLit(s, rest);
    case Paren(inner) =>
      LexPrint(inner, [')'] + rest);
      LexParen(inner, rest);
    case Bin(o, l, r) =>
      var pr := Print(r);
      PrintNonEmpty(r);
      assert (pr + rest)[0] == pr[0];
      LexPrint(r, rest);
      LexPrint(l, [o] + (pr + rest));
      LexBin(o, l, r, rest);
  }

  lemma LexLit(s: string, rest: string)
    requires s != [] && AllNumberChars(s)
    requires rest == [] || !IsNumberChar(rest[0])
    ensures Lex(s + rest) == [Literal(s)] + Lex(rest)
  {
    var t := s + rest;
    LexLiteral(t, 0, |s|);
    assert t[0..] == t && t[0..|s|] == s && t[|s|..] == rest;
  }

  lemma LexParen(inner: Expr, rest: string)
    requires Lex(Print(inner) + ([')'] + rest)) == Tokens(inner) + Lex([')'] + rest)
    ensures Lex(Print(Paren(inner)) + rest) == Tokens(Paren(inner)) + Lex(rest)
  {
    var p := Print(inner);
    assert Print(Paren(inner)) + rest == ['('] + (p + ([')'] + rest));
    LexSymbolFirst('(', p + ([')'] + rest));
    LexSymbolFirst(')', rest);
    assert Tokens(Paren(inner)) + Lex(rest)
        == [Symbol('(')] + (Tokens(inner) + ([Symbol(')')] + Lex(rest)));
  }

  lemma LexBin(o: char, l: Expr, r: Expr, rest: string)
    requires IsOperator(o)
    requires Lex(Print(r) + rest) == Tokens(r) + Lex(rest)
    requires Lex(Print(l) + ([o] + (Print(r) + rest))) == Tokens(l) + Lex([o] + (Print(r) + rest))
    ensures Lex(Print(Bin(o, l, r)) + rest) == Tokens(Bin(o, l, r)) + Lex(rest)
  {
    ClassesDisjoint(o);
    LexSymbolFirst(o, Print(r) + rest);
    PrintBin(o, l, r, rest);
    TokensBin(o, l, r, Lex(rest));
  }

  lemma PrintBin(o: char, l: Expr, r: Expr, rest: string)
    ensures Print(Bin(o, l, r)) + rest == Print(l) + ([o] + (Print(r) + rest))
  {
  }

  lemma TokensBin(o: char, l: Expr, r: Expr, rest: seq<Token>)
    ensures Tokens(Bin(o, l, r)) + rest == Tokens(l) + ([Symbol(o)] + (Tokens(r) + rest))
  {
  }

  /** A printed expression is never empty. */
  lemma PrintNonEmpty(e: Expr)
    requires WellShaped(e)
    ensures Print(e) != []
  {
    match e
    case Lit(_) =>
    case Paren(_) =>
    case Bin(_, l, _) => PrintNonEmpty(l);
  }

  /** Running after a run: a failure passes through. */
  function RunAfter(r: Result<Stacks, Failure>, ts: seq<Token>): Result<Stacks, Failure>
  {
    match r
    case Err(f) => Err(f)
    case Ok(st) => Run(st, ts)
  }

  /** Running two token sequences one after the other is running their concatenation. */
  lemma {:induction false} RunAppend(st: Stacks, a: seq<Token>, b: seq<Token>)
    ensures Run(st, a + b) == RunAfter(Run(st, a), b)
    decreases |a|
  {
    if a == [] {
      assert a + b == b;
    } else {
      assert (a + b)[0] == a[0] && (a + b)[1..] == a[1..] + b;
      match Step(st, a[0])
      case Err(_) =>
      case Ok(s) => RunAppend(s, a[1..], b);
    }
  }

  /** Apply operators from the top until only the bottom m are left. */
  function ReduceTo(st: Stacks, m: nat): (r: Result<Stacks, Failure>)
    ensures r.Ok? && m <= |st.operators| ==> r.value.operators == st.operators[..m]
    ensures |st.operators| <= m ==> r == Ok(st)
    decreases |st.operators|
  {
    if |st.operators| <= m then Ok(st)
    else match Reduce(st)
      case Err(f) => Err(f)
      case Ok(s) => ReduceTo(s, m)
  }

  /** The pending operators of an outcome, applied down to the bottom m. */
  function Settle(r: Result<Stacks, Failure>, m: nat): Result<Stacks, Failure>
  {
    match r
    case Err(f) => Err(f)
    case Ok(st) => ReduceTo(st, m)
  }

  /** The stacks with one more operand, or the failure that stands in for it. */
  function Push(st: Stacks, v: Result<real, Failure>): Result<Stacks, Failure>
  {
    match v
    case Err(f) => Err(f)
    case Ok(x) => Ok(Stacks(st.operands + [x], st.operators))
  }

  /** Above the bottom m, the operator stack holds only operators of tier t or higher. */
  predicate Pending(st: Stacks, m: nat, t: nat)
  {
    && m <= |st.operators|
    && forall j :: m <= j < |st.operators| ==> IsOperator(st.operators[j]) && Tier(st.operators[j]) >= t
  }

  /** The top of the stack below an expression does not give way to the expression's own
      operators: the stack is empty, or its top is an open bracket or looser operator. */
  predicate Guard(ops: seq<char>, t: nat)
  {
    ops == [] || IsOpen(ops[|ops| - 1]) || (IsOperator(ops[|ops| - 1]) && Tier(ops[|ops| - 1]) < t)
  }

  /** Reducing down to m is reducing to a higher mark first. */
  lemma {:induction false} ReduceToTwice(st: Stacks, m: nat, n: nat)
    requires m <= n
    ensures ReduceTo(st, m) == Settle(ReduceTo(st, n), m)
    decreases |st.operators|
  {
    if |st.operators| > n {
      match Reduce(st)
      case Err(_) =>
      case Ok(s) => ReduceToTwice(s, m, n);
    }
  }

  /** Draining is reducing down to the empty operator stack. */
  lemma {:induction false} DrainReducesAll(st: Stacks)
    ensures Drain(st) == ReduceTo(st, 0)
    decreases |st.operators|
  {
    if st.operators != [] {
      match Reduce(st)
      case Err(_) =>
      case Ok(s) => DrainReducesAll(s);
    }
  }

  /** An operator at or below the tier of everything pending first applies all of it, and
      stops at a guard. */
  lemma {:induction false} PushAfterPending(st: Stacks, m: nat, t: nat, o: char)
    requires Pending(st, m, t) && IsOperator(o) && Tier(o) <= t
    requires m > 0 ==> !HasPrecedence(o, st.operators[m - 1])
    ensures PushOperator(st, o) == PushOnto(ReduceTo(st, m), o)
    decreases |st.operators|
  {
    var ops := st.operators;
    if |ops| > m {
      assert HasPrecedence(o, ops[|ops| - 1]);
      match Reduce(st)
      case Err(_) =>
      case Ok(s) =>
        assert s.operators == ops[..|ops| - 1];
        PushAfterPending(s, m, t, o);
    }
  }

  /** The stacks with one more operator, or the failure. */
  function PushOnto(r: Result<Stacks, Failure>, o: char): Result<Stacks, Failure>
  {
    match r
    case Err(f) => Err(f)
    case Ok(st) => Ok(Stacks(st.operands, st.operators + [o]))
  }

  /** The stacks with the top operator discarded, or the failure. */
  function PopOpen(r: Result<Stacks, Failure>): Result<Stacks, Failure>
  {
    match r
    case Err(f) => Err(f)
    case Ok(st) => if st.operators == [] then Err(EmptyStack) else Ok(Stacks(st.operands, DropLast(st.operators)))
  }

  /** A close bracket applies everything pending above its `(` and then discards it. */
  lemma {:induction false} CloseAfterPending(st: Stacks, m: nat, t: nat)
    requires Pending(st, m + 1, t) && st.operators[m] == '('
    ensures CloseBracket(st) == PopOpen(ReduceTo(st, m + 1))
    decreases |st.operators|
  {
    var ops := st.operators;
    if |ops| > m + 1 {
      assert IsOperator(ops[|ops| - 1]);
      match Reduce(st)
      case Err(_) =>
      case Ok(s) =>
        assert s.operators == ops[..|ops| - 1];
        CloseAfterPending(s, m, t);
    }
  }

  /** What the run of an expression's tokens leaves: the stack below is untouched, only
      operators of the expression's tier or tighter are pending, and applying them leaves
      exactly the expression's value on top. */
  predicate Leaves(st: Stacks, r: Result<Stacks, Failure>, e: Expr)
  {
    && (r.Ok? ==> && Pending(r.value, |st.operators|, TopTier(e))
                  && r.value.operators[..|st.operators|] == st.operators)
    && Settle(r, |st.operators|) == Push(st, Meaning(e))
  }

  lemma LeavesLit(st: Stacks, s: string)
    requires WellShaped(Lit(s))
    ensures Leaves(st, Run(st, Tokens(Lit(s))), Lit(s))
  {
    RunCons(st, Literal(s), []);
    assert [Literal(s)] + [] == [Literal(s)];
  }

  /** An outcome that is just the value pushed onto the stacks leaves that value. */
  lemma LeavesPushed(st: Stacks, e: Expr)
    ensures Leaves(st, Push(st, Meaning(e)), e)
  {
    var m := |st.operators|;
    match Meaning(e)
    case Err(_) =>
    case Ok(v) =>
      assert st.operators[..m] == st.operators;
  }

  lemma PopOpenPushed(st: Stacks, v: Result<real, Failure>)
    ensures PopOpen(Push(Stacks(st.operands, st.operators + ['(']), v)) == Push(st, v)
  {
    assert DropLast(st.operators + ['(']) == st.operators;
  }

  /** The close bracket after a bracketed expression leaves its value above the bracket. */
  lemma CloseSettles(st: Stacks, inner: Expr, r2: Result<Stacks, Failure>)
    requires Leaves(Stacks(st.operands, st.operators + ['(']), r2, inner)
    ensures RunAfter(r2, [Symbol(')')]) == Push(st, Meaning(inner))
  {
    PopOpenPushed(st, Meaning(inner));
    if r2.Ok? {
      CloseOnPending(st, inner, r2.value);
    }
  }

  lemma CloseOnPending(st: Stacks, inner: Expr, s2: Stacks)
    requires Leaves(Stacks(st.operands, st.operators + ['(']), Ok(s2), inner)
    ensures Run(s2, [Symbol(')')]) == PopOpen(ReduceTo(s2, |st.operators| + 1))
  {
    var m := |st.operators|;
    assert s2.operators[m] == (st.operators + ['('])[m];
    CloseAfterPending(s2, m, TopTier(inner));
    RunCons(s2, Symbol(')'), []);
    assert [Symbol(')')] + [] == [Symbol(')')];
  }

  lemma ParenRun(st: Stacks, inner: Expr)
    ensures Run(st, Tokens(Paren(inner)))
         == RunAfter(Run(Stacks(st.operands, st.operators + ['(']), Tokens(inner)), [Symbol(')')])
  {
    var ts := Tokens(inner);
    assert Tokens(Paren(inner)) == [Symbol('(')] + (ts + [Symbol(')')]);
    RunCons(st, Symbol('('), ts + [Symbol(')')]);
    RunAppend(Stacks(st.operands, st.operators + ['(']), ts, [Symbol(')')]);
  }

  lemma LeavesParen(st: Stacks, inner: Expr, r2: Result<Stacks, Failure>)
    requires var s1 := Stacks(st.operands, st.operators + ['(']);
      r2 == Run(s1, Tokens(inner)) && Leaves(s1, r2, inner)
    ensures Leaves(st, Run(st, Tokens(Paren(inner))), Paren(inner))
  {
    ParenRun(st, inner);
    CloseSettles(st, inner, r2);
    LeavesPushed(st, Paren(inner));
  }

  /** The left operand is done when its operator arrives. */
  lemma LeavesBinLeft(st: Stacks, o: char, l: Expr, r1: Result<Stacks, Failure>)
    requires IsOperator(o) && Tier(o) <= TopTier(l) && Guard(st.operators, Tier(o))
    requires Leaves(st, r1, l)
    ensures RunAfter(r1, [Symbol(o)]) == PushOnto(Push(st, Meaning(l)), o)
  {
    ClassesDisjoint(o);
    match r1
    case Err(_) =>
    case Ok(s1) =>
      var m := |st.operators|;
      if m > 0 {
        assert s1.operators[m - 1] == st.operators[m - 1];
      }
      PushAfterPending(s1, m, TopTier(l), o);
      RunCons(s1, Symbol(o), []);
      assert [Symbol(o)] + [] == [Symbol(o)];
  }

  /** The right operand's pending operators sit above its own operator, which is looser. */
  lemma BinPending(st: Stacks, o: char, r: Expr, s3: Stacks)
    requires IsOperator(o) && Tier(o) < TopTier(r)
    requires Pending(s3, |st.operators| + 1, TopTier(r))
    requires s3.operators[..|st.operators| + 1] == st.operators + [o]
    ensures Pending(s3, |st.operators|, Tier(o)) && s3.operators[..|st.operators|] == st.operators
  {
    var m := |st.operators|;
    assert s3.operators[..m] == s3.operators[..m + 1][..m];
    assert s3.operators[m] == s3.operators[..m + 1][m];
  }

  /** With both operands on the stacks, settling applies their operator. */
  lemma ApplySettled(st: Stacks, o: char, a: real, v: Result<real, Failure>)
    ensures Settle(Push(Stacks(st.operands + [a], st.operators + [o]), v), |st.operators|)
         == Push(st, Infix(o, Ok(a), v))
  {
    match v
    case Err(_) =>
    case Ok(b) =>
      ReduceTop(st.operands, a, b, st.operators, o);
      assert st.operands + [a] + [b] == st.operands + [a, b];
  }

  /** The right operand is done when the stack below settles, and its operator applies. */
  lemma LeavesBinRight(st: Stacks, o: char, l: Expr, r: Expr, a: real, r3: Result<Stacks, Failure>)
    requires IsOperator(o) && Tier(o) < TopTier(r) && Meaning(l) == Ok(a)
    requires Leaves(Stacks(st.operands + [a], st.operators + [o]), r3, r)
    ensures Leaves(st, r3, Bin(o, l, r))
  {
    var m := |st.operators|;
    ApplySettled(st, o, a, Meaning(r));
    match r3
    case Err(_) =>
    case Ok(s3) =>
      BinPending(st, o, r, s3);
      ReduceToTwice(s3, m, m + 1);
  }

  /** Running the tokens of a well-shaped expression above a guard leaves its value. */
  lemma {:induction false} RunExpr(e: Expr, st: Stacks)
    requires WellShaped(e) && Guard(st.operators, TopTier(e))
    ensures Leaves(st, Run(st, Tokens(e)), e)
    decreases e
  {
    match e
    case Lit(s) => LeavesLit(st, s);
    case Paren(inner) =>
      var s1 := Stacks(st.operands, st.operators + ['(']);
      RunExpr(inner, s1);
      LeavesParen(st, inner, Run(s1, Tokens(inner)));
    case Bin(o, l, r) =>
      var r1 := Run(st, Tokens(l));
      RunExpr(l, st);
      LeavesBinLeft(st, o, l, r1);
      assert Tokens(e) == Tokens(l) + ([Symbol(o)] + Tokens(r));
      RunAppend(st, Tokens(l), [Symbol(o)] + Tokens(r));
      RunAppend(st, Tokens(l), [Symbol(o)]);
      match Meaning(l)
      case Err(_) =>
        RunAfterSplit(r1, Symbol(o), Tokens(r));
      case Ok(a) =>
        var s2 := Stacks(st.operands + [a], st.operators + [o]);
        RunAfterSplit(r1, Symbol(o), Tokens(r));
        RunExpr(r, s2);
        LeavesBinRight(st, o, l, r, a, Run(s2, Tokens(r)));
  }

  lemma RunAfterSplit(r: Result<Stacks, Failure>, t: Token, ts: seq<Token>)
    ensures RunAfter(r, [t] + ts) == RunAfter(RunAfter(r, [t]), ts)
  {
    match r
    case Err(_) =>
    case Ok(st) => RunAppend(st, [t], ts);
  }

  /** eval computes ordinary arithmetic: on the text of every well-shaped expression it
      returns the value of the tree, and fails with the first failure the tree meets. */
  lemma EvalMeaning(e: Expr)
    requires WellShaped(e)
    ensures EvalSpec(Print(e)) == Meaning(e)
  {
    LexPrint(e, []);
    assert Print(e) + [] == Print(e);
    assert Tokens(e) + Lex([]) == Tokens(e);
    var st := Stacks([], []);
    RunExpr(e, st);
    match Run(st, Tokens(e))
    case Err(_) =>
    case Ok(s) => DrainReducesAll(s);
  }

  /** The literal of a natural number. */
  function Num(n: nat): Expr
  {
    Lit(Numeral(n))
  }

  lemma NumShaped(n: nat)
    ensures WellShaped(Num(n)) && TopTier(Num(n)) == 3 && Meaning(Num(n)) == Value(n)
  {
    ParseNumeral(n);
  }

  /** The meaning of a tree is what eval gives for any text equal to its print. */
  lemma EvalText(e: Expr, t: string)
    requires WellShaped(e) && Print(e) == t
    ensures EvalSpec(t) == Meaning(e)
  {
    EvalMeaning(e);
  }

  /** A single operator applies to the operand before it and the one after it, in that
      order. */
  lemma EvalBinary(x: nat, op: char, y: nat)
    requires IsOperator(op)
    ensures EvalSpec(Numeral(x) + [op] + Numeral(y)) == Infix(op, Value(x), Value(y))
  {
    NumShaped(x);
    NumShaped(y);
    MeaningBin(op, Num(x), Num(y));
    EvalText(Bin(op, Num(x), Num(y)), Numeral(x) + [op] + Numeral(y));
  }

  /** The meaning of a tree whose leaves are natural numbers, operator by operator. */
  lemma MeaningBin(o: char, l: Expr, r: Expr)
    ensures Meaning(Bin(o, l, r)) == Infix(o, Meaning(l), Meaning(r))
  {
  }

  lemma PrintLeftNested(x: nat, o1: char, y: nat, o2: char, z: nat)
    ensures Print(Bin(o2, Bin(o1, Num(x), Num(y)), Num(z)))
         == Numeral(x) + [o1] + Numeral(y) + [o2] + Numeral(z)
  {
    assert Print(Bin(o1, Num(x), Num(y))) == Numeral(x) + [o1] + Numeral(y);
  }

  lemma PrintRightNested(x: nat, o1: char, y: nat, o2: char, z: nat)
    ensures Print(Bin(o1, Num(x), Bin(o2, Num(y), Num(z))))
         == Numeral(x) + [o1] + Numeral(y) + [o2] + Numeral(z)
  {
    var nx, ny, nz := Numeral(x), Numeral(y), Numeral(z);
    assert Print(Bin(o2, Num(y), Num(z))) == ny + [o2] + nz;
    assert nx + [o1] + (ny + [o2] + nz) == nx + [o1] + ny + [o2] + nz;
  }

  lemma LeftNestedShaped(x: nat, o1: char, y: nat, o2: char, z: nat)
    requires IsOperator(o1) && IsOperator(o2) && Tier(o1) >= Tier(o2)
    ensures var e := Bin(o2, Bin(o1, Num(x), Num(y)), Num(z));
      WellShaped(e) && Meaning(e) == Infix(o2, Infix(o1, Value(x), Value(y)), Value(z))
  {
    var inner := Bin(o1, Num(x), Num(y));
    NumShaped(x);
    NumShaped(y);
    NumShaped(z);
    MeaningBin(o1, Num(x), Num(y));
    MeaningBin(o2, inner, Num(z));
    assert WellShaped(inner) && TopTier(inner) == Tier(o1);
  }

  lemma RightNestedShaped(x: nat, o1: char, y: nat, o2: char, z: nat)
    requires IsOperator(o1) && IsOperator(o2) && Tier(o1) < Tier(o2)
    ensures var e := Bin(o1, Num(x), Bin(o2, Num(y), Num(z)));
      WellShaped(e) && Meaning(e) == Infix(o1, Value(x), Infix(o2, Value(y), Value(z)))
  {
    var inner := Bin(o2, Num(y), Num(z));
    NumShaped(x);
    NumShaped(y);
    NumShaped(z);
    MeaningBin(o2, Num(y), Num(z));
    MeaningBin(o1, Num(x), inner);
    assert WellShaped(inner) && TopTier(inner) == Tier(o2);
  }

  /** `x o1 y o2 z` with the first operator applied first. */
  lemma EvalLeftFirst(x: nat, o1: char, y: nat, o2: char, z: nat)
    requires IsOperator(o1) && IsOperator(o2) && Tier(o1) >= Tier(o2)
    ensures EvalSpec(Numeral(x) + [o1] + Numeral(y) + [o2] + Numeral(z))
         == Infix(o2, Infix(o1, Value(x), Value(y)), Value(z))
  {
    LeftNestedShaped(x, o1, y, o2, z);
    PrintLeftNested(x, o1, y, o2, z);
    EvalText(Bin(o2, Bin(o1, Num(x), Num(y)), Num(z)), Numeral(x) + [o1] + Numeral(y) + [o2] + Numeral(z));
  }

  /** `x o1 y o2 z` with the second operator applied first. */
  lemma EvalRightFirst(x: nat, o1: char, y: nat, o2: char, z: nat)
    requires IsOperator(o1) && IsOperator(o2) && Tier(o1) < Tier(o2)
    ensures EvalSpec(Numeral(x) + [o1] + Numeral(y) + [o2] + Numeral(z))
         == Infix(o1, Value(x), Infix(o2, Value(y), Value(z)))
  {
    RightNestedShaped(x, o1, y, o2, z);
    PrintRightNested(x, o1, y, o2, z);
    EvalText(Bin(o1, Num(x), Bin(o2, Num(y), Num(z))), Numeral(x) + [o1] + Numeral(y) + [o2] + Numeral(z));
  }

  /** Precedence and associativity: in `x o1 y o2 z` the first operator is applied first when
      it is of the same or a higher tier than the second (so equal tiers associate to the
      left and `^` binds no tighter than `*` and `/`), and the second is applied first
      otherwise. */
  lemma EvalTernary(x: nat, o1: char, y: nat, o2: char, z: nat)
    requires IsOperator(o1) && IsOperator(o2)
    ensures EvalSpec(Numeral(x) + [o1] + Numeral(y) + [o2] + Numeral(z)) ==
      if Tier(o1) >= Tier(o2) then Infix(o2, Infix(o1, Value(x), Value(y)), Value(z))
      else Infix(o1, Value(x), Infix(o2, Value(y), Value(z)))
  {
    if Tier(o1) >= Tier(o2) {
      EvalLeftFirst(x, o1, y, o2, z);
    } else {
      EvalRightFirst(x, o1, y, o2, z);
    }
  }

  lemma PrintBracketedLeft(x: nat, o1: char, y: nat, o2: char, z: nat)
    ensures Print(Bin(o2, Paren(Bin(o1, Num(x), Num(y))), Num(z)))
         == "(" + Numeral(x) + [o1] + Numeral(y) + ")" + [o2] + Numeral(z)
  {
    var nx, ny, nz := Numeral(x), Numeral(y), Numeral(z);
    assert Print(Bin(o1, Num(x), Num(y))) == nx + [o1] + ny;
    assert Print(Paren(Bin(o1, Num(x), Num(y)))) == "(" + (nx + [o1] + ny) + ")";
    assert "(" + (nx + [o1] + ny) + ")" == "(" + nx + [o1] + ny + ")";
  }

  /** A bracketed operation is applied before the operator that follows it, whatever the
      tiers of the two operators. */
  lemma EvalBracketed(x: nat, o1: char, y: nat, o2: char, z: nat)
    requires IsOperator(o1) && IsOperator(o2)
    ensures EvalSpec("(" + Numeral(x) + [o1] + Numeral(y) + ")" + [o2] + Numeral(z))
      == Infix(o2, Infix(o1, Value(x), Value(y)), Value(z))
  {
    var e := Bin(o2, Paren(Bin(o1, Num(x), Num(y))), Num(z));
    BracketedLeftShaped(x, o1, y, o2, z);
    PrintBracketedLeft(x, o1, y, o2, z);
    EvalText(e, "(" + Numeral(x) + [o1] + Numeral(y) + ")" + [o2] + Numeral(z));
  }

  lemma BracketedLeftShaped(x: nat, o1: char, y: nat, o2: char, z: nat)
    requires IsOperator(o1) && IsOperator(o2)
    ensures var e := Bin(o2, Paren(Bin(o1, Num(x), Num(y))), Num(z));
      WellShaped(e) && Meaning(e) == Infix(o2, Infix(o1, Value(x), Value(y)), Value(z))
  {
    var inner := Paren(Bin(o1, Num(x), Num(y)));
    NumShaped(x);
    NumShaped(y);
    NumShaped(z);
    MeaningBin(o1, Num(x), Num(y));
    MeaningBin(o2, inner, Num(z));
    assert WellShaped(Bin(o1, Num(x), Num(y)));
    assert WellShaped(inner) && TopTier(inner) == 3;
  }


  lemma PrintBracketedRight(x: nat, o: char, y: nat)
    ensures Print(Bin(o, Num(x), Paren(Num(y)))) == Numeral(x) + [o] + "(" + Numeral(y) + ")"
  {
    var nx, ny := Numeral(x), Numeral(y);
    assert Print(Paren(Num(y))) == "(" + ny + ")";
    assert nx + [o] + ("(" + ny + ")") == nx + [o] + "(" + ny + ")";
  }

  /** A bracketed operand after an operator is the right operand of that operator. */
  lemma EvalOperandBracketed(x: nat, o: char, y: nat)
    requires IsOperator(o)
    ensures EvalSpec(Numeral(x) + [o] + "(" + Numeral(y) + ")") == Infix(o, Value(x), Value(y))
  {
    OperandBracketedShaped(x, o, y);
    PrintBracketedRight(x, o, y);
    EvalText(Bin(o, Num(x), Paren(Num(y))), Numeral(x) + [o] + "(" + Numeral(y) + ")");
  }

  lemma OperandBracketedShaped(x: nat, o: char, y: nat)
    requires IsOperator(o)
    ensures var e := Bin(o, Num(x), Paren(Num(y)));
      WellShaped(e) && Meaning(e) == Infix(o, Value(x), Value(y))
  {
    NumShaped(x);
    NumShaped(y);
    MeaningBin(o, Num(x), Paren(Num(y)));
    assert WellShaped(Paren(Num(y))) && TopTier(Paren(Num(y))) == 3;
  }

  /** `*` binds tighter than `+`. */
  lemma ProductBeforeSum()
    ensures EvalSpec("2+3*4") == Ok(14.0)
  {
    var e := Numeral(2) + ['+'] + Numeral(3) + ['*'] + Numeral(4);
    assert Numeral(2) == "2" && Numeral(3) == "3" && Numeral(4) == "4";
    assert "2+3*4" == e;
    EvalTernary(2, '+', 3, '*', 4);
  }

  /** `^` shares the tier of `*`, so `2*3^2` is (2*3)^2. */
  lemma PowerSharesProductTier()
    ensures EvalSpec("2*3^2") == Ok(36.0)
  {
    var e := Numeral(2) + ['*'] + Numeral(3) + ['^'] + Numeral(2);
    assert Numeral(2) == "2" && Numeral(3) == "3";
    assert "2*3^2" == e;
    EvalTernary(2, '*', 3, '^', 2);
    assert Pow(6.0, 2) == 36.0;
  }

  /** Operators of one tier associate to the left. */
  lemma SubtractionAssociatesLeft()
    ensures EvalSpec("8-2-1") == Ok(5.0)
  {
    var e := Numeral(8) + ['-'] + Numeral(2) + ['-'] + Numeral(1);
    assert Numeral(8) == "8" && Numeral(2) == "2" && Numeral(1) == "1";
    assert "8-2-1" == e;
    EvalTernary(8, '-', 2, '-', 1);
  }

  /** The form the normaliser gives a leading minus. */
  lemma RewrittenUnaryMinus()
    ensures EvalSpec("0-5+2") == Ok(-3.0)
  {
    var e := Numeral(0) + ['-'] + Numeral(5) + ['+'] + Numeral(2);
    assert Numeral(0) == "0" && Numeral(5) == "5" && Numeral(2) == "2";
    assert "0-5+2" == e;
    EvalTernary(0, '-', 5, '+', 2);
  }

  lemma BracketsFirst()
    ensures EvalSpec("(2+3)*4") == Ok(20.0)
  {
    var e := "(" + Numeral(2) + ['+'] + Numeral(3) + ")" + ['*'] + Numeral(4);
    assert Numeral(2) == "2" && Numeral(3) == "3" && Numeral(4) == "4";
    assert "(2+3)*4" == e;
    EvalBracketed(2, '+', 3, '*', 4);
  }

  /** Division is exact where the quotient has a finite expansion. */
  lemma ExactQuotient()
    ensures EvalSpec("10/4") == Ok(2.5)
  {
    var e := Numeral(10) + ['/'] + Numeral(4);
    assert Numeral(10) == "10" && Numeral(4) == "4";
    assert "10/4" == e;
    EvalBinary(10, '/', 4);
  }

  lemma DivisionByZeroFails()
    ensures EvalSpec("5/0") == Err(DivisionByZero)
  {
    var e := Numeral(5) + ['/'] + Numeral(0);
    assert Numeral(5) == "5" && Numeral(0) == "0";
    assert "5/0" == e;
    EvalBinary(5, '/', 0);
  }

  lemma ExactPower()
    ensures EvalSpec("2^10") == Ok(1024.0)
  {
    var e := Numeral(2) + ['^'] + Numeral(10);
    assert Numeral(2) == "2" && Numeral(10) == "10";
    assert "2^10" == e;
    EvalBinary(2, '^', 10);
    assert Pow(2.0, 5) == 32.0;
    PowAdd(2.0, 5, 5);
  }
}
