/** convertToProperExpression: rewrites raw text into the form the evaluator reads. Brackets
    become generic, vacuous pairs are collapsed, implicit products get an explicit `*`, sign
    pairs are collapsed and a unary minus is rewritten as a binary one. */
module Normalize {
  import opened Chars
  import opened Outcomes
  import opened Collapse

  /** A bracket of any kind becomes the generic `(` or `)`; every other character is kept. */
  function Generic(ch: char): char
  {
    if IsOpen(ch) then '(' else if IsClose(ch) then ')' else ch
  }

  function GenericAll(e: string): string
  {
    seq(|e|, k requires 0 <= k < |e| => Generic(e[k]))
  }

  /** Neighbours that multiply implicitly: `)` before a digit or `(`, or a digit before `(`. */
  predicate Juxtaposed(a: char, b: char)
  {
    (IsClose(a) && IsOperand(b)) || (IsClose(a) && IsOpen(b)) || (IsOperand(a) && IsOpen(b))
  }

  /** The token a lone, non-final `-` at position i is rewritten to. The rules of the source
      overwrite one another in turn, so the later rule wins: `1+0-` after `*` or `/`, else
      `+0-` after a close bracket, else `0-` at the start, after `+` or next to an open
      bracket on either side, else the `-` itself. */
  function MinusToken(c: seq<char>, i: nat): string
    requires i + 1 < |c|
  {
    if i > 0 && (c[i - 1] == '*' || c[i - 1] == '/') then "1+0-"
    else if i > 0 && IsClose(c[i - 1]) then "+0-"
    else if i == 0 || c[i - 1] == '+' || IsOpen(c[i + 1]) || IsOpen(c[i - 1]) then "0-"
    else "-"
  }

  /** The tokens that position i contributes to the output and the number of positions it
      consumes. */
  datatype Group = Group(tokens: seq<string>, width: nat)

  /** The rewriting rules, one position at a time; None where the source reads past the end
      (a `--` after an open bracket at the very end). */
  function GroupAt(c: seq<char>, i: nat): (g: Option<Group>)
    requires i < |c|
    ensures g.Some? ==> 1 <= g.value.width <= 2 && i + g.value.width <= |c|
  {
    if i + 1 == |c| then Some(Group([[c[i]]], 1))
    else if c[i] == '-' && c[i + 1] == '-' then
      if i == 0 then Some(Group([], 2))
      else if IsOpen(c[i - 1]) && i + 2 == |c| then None
      else if IsOpen(c[i - 1]) && (IsOpen(c[i + 2]) || IsOperand(c[i + 2])) then Some(Group([], 2))
      else Some(Group(["+"], 2))
    else if c[i] == '+' && c[i + 1] == '-' then Some(Group(["-"], 2))
    else if c[i] == '-' then Some(Group([MinusToken(c, i)], 1))
    else if Juxtaposed(c[i], c[i + 1]) then Some(Group([[c[i]], "*"], 1))
    else Some(Group([[c[i]]], 1))
  }

  /** The tokens produced from position i on. */
  function TokensFrom(c: seq<char>, i: nat): Option<seq<string>>
    requires i <= |c|
    decreases |c| - i
  {
    if i == |c| then Some([])
    else match GroupAt(c, i)
      case None => None
      case Some(g) =>
        match TokensFrom(c, i + g.width)
        case None => None
        case Some(rest) => Some(g.tokens + rest)
  }

  /** The tokens joined into one string; single-space tokens are dropped. */
  function Join(ts: seq<string>): string
  {
    if ts == [] then ""
    else Join(ts[..|ts| - 1]) + (if ts[|ts| - 1] == " " then "" else ts[|ts| - 1])
  }

  /** What convertToProperExpression returns for `e`; None where it throws. */
  function Normalized(e: string): Option<string>
  {
    match Collapsed(GenericAll(e))
    case None => None
    case Some(c) =>
      match TokensFrom(c, 0)
      case None => None
      case Some(ts) => Some(Join(ts))
  }

  function Prefixed(done: seq<string>, rest: Option<seq<string>>): Option<seq<string>>
  {
    match rest
    case None => None
    case Some(ts) => Some(done + ts)
  }

  lemma PrefixedAssoc(a: seq<string>, b: seq<string>, rest: Option<seq<string>>)
    ensures Prefixed(a, Prefixed(b, rest)) == Prefixed(a + b, rest)
    ensures Prefixed([], rest) == rest
  {
    if rest.Some? {
      assert a + (b + rest.value) == a + b + rest.value;
      assert [] + rest.value == rest.value;
    }
  }

  /** The tokens joined into one string, nothing dropped. */
  function Concat(ts: seq<string>): string
  {
    if ts == [] then "" else Concat(ts[..|ts| - 1]) + ts[|ts| - 1]
  }

  lemma {:induction false} ConcatAppend(a: seq<string>, b: seq<string>)
    ensures Concat(a + b) == Concat(a) + Concat(b)
    decreases |b|
  {
    if b == [] {
      assert a + b == a;
    } else {
      assert (a + b)[..|a + b| - 1] == a + b[..|b| - 1];
      ConcatAppend(a, b[..|b| - 1]);
    }
  }

  lemma ConcatOne(t: string)
    ensures Concat([t]) == t
  {
    assert [t][..0] == [];
  }

  lemma ConcatTwo(t: string, u: string)
    ensures Concat([t, u]) == t + u
  {
    ConcatAppend([t], [u]);
    ConcatOne(t);
    ConcatOne(u);
    assert [t] + [u] == [t, u];
  }

  lemma ConcatFirst(ts: seq<string>)
    requires |ts| > 0 && |ts[0]| > 0
    ensures |Concat(ts)| > 0 && Concat(ts)[0] == ts[0][0]
  {
    assert ts == [ts[0]] + ts[1..];
    ConcatAppend([ts[0]], ts[1..]);
    ConcatOne(ts[0]);
  }

  /** Where no token is a single space, joining drops nothing. */
  lemma {:induction false} JoinWithoutSpaces(ts: seq<string>)
    requires forall j :: 0 <= j < |ts| ==> ts[j] != " "
    ensures Join(ts) == Concat(ts)
    decreases |ts|
  {
    if ts != [] {
      JoinWithoutSpaces(ts[..|ts| - 1]);
    }
  }

  /** A bracket in `ch`, if any, is a generic one. */
  predicate GenericChar(ch: char)
  {
    (IsOpen(ch) ==> ch == '(') && (IsClose(ch) ==> ch == ')')
  }

  /** Text without spaces whose brackets are all generic. */
  predicate Clean(s: string)
  {
    forall k :: 0 <= k < |s| ==> s[k] != ' ' && GenericChar(s[k])
  }

  lemma {:induction false} TokensClean(c: seq<char>, i: nat)
    requires i <= |c|
    requires forall k :: 0 <= k < |c| ==> GenericChar(c[k])
    requires TokensFrom(c, i).Some?
    ensures forall j :: 0 <= j < |TokensFrom(c, i).value| ==>
      TokensFrom(c, i).value[j] == " " || Clean(TokensFrom(c, i).value[j])
    decreases |c| - i
  {
    if i < |c| {
      var g := GroupAt(c, i).value;
      TokensClean(c, i + g.width);
    }
  }

  lemma {:induction false} TokensNoSpace(c: seq<char>, i: nat)
    requires i <= |c|
    requires forall k :: 0 <= k < |c| ==> c[k] != ' '
    requires TokensFrom(c, i).Some?
    ensures forall j :: 0 <= j < |TokensFrom(c, i).value| ==> TokensFrom(c, i).value[j] != " "
    decreases |c| - i
  {
    if i < |c| {
      var g := GroupAt(c, i).value;
      TokensNoSpace(c, i + g.width);
    }
  }

  lemma {:induction false} JoinClean(ts: seq<string>)
    requires forall j :: 0 <= j < |ts| ==> ts[j] == " " || Clean(ts[j])
    ensures Clean(Join(ts))
    decreases |ts|
  {
    if ts != [] {
      JoinClean(ts[..|ts| - 1]);
    }
  }

  /** The output holds only generic brackets and no spaces: every `{`, `[`, `]`, `}` has been
      replaced and every single-space token dropped. */
  lemma NormalizedClean(e: string)
    requires Normalized(e).Some?
    ensures Clean(Normalized(e).value)
  {
    var c := Collapsed(GenericAll(e)).value;
    CollapsedFromInput(GenericAll(e));
    assert forall k :: 0 <= k < |c| ==> GenericChar(c[k]) by {
      forall k | 0 <= k < |c| ensures GenericChar(c[k]) {
        var m :| 0 <= m < |e| && GenericAll(e)[m] == c[k];
      }
    }
    TokensClean(c, 0);
    JoinClean(TokensFrom(c, 0).value);
  }

  /** No two neighbours in `s` multiply implicitly. */
  predicate ExplicitProducts(s: string)
  {
    forall k :: 0 <= k < |s| - 1 ==> !Juxtaposed(s[k], s[k + 1])
  }

  lemma ExplicitProductsAppend(x: string, y: string)
    requires ExplicitProducts(x) && ExplicitProducts(y)
    requires |x| > 0 && |y| > 0 ==> !Juxtaposed(x[|x| - 1], y[0])
    ensures ExplicitProducts(x + y)
  {
    var s := x + y;
    forall k | 0 <= k < |s| - 1
      ensures !Juxtaposed(s[k], s[k + 1])
    {
      if k + 1 < |x| {
        assert s[k] == x[k] && s[k + 1] == x[k + 1];
      } else if k >= |x| {
        assert s[k] == y[k - |x|] && s[k + 1] == y[k + 1 - |x|];
      }
    }
  }

  /** The text produced from position i begins with a character that does not multiply
      implicitly with c[i - 1], a close bracket or digit that was not followed by a digit or
      open bracket. */
  lemma TokensStart(c: seq<char>, i: nat)
    requires 0 < i < |c|
    requires IsClose(c[i - 1]) || IsOperand(c[i - 1])
    requires !Juxtaposed(c[i - 1], c[i])
    requires TokensFrom(c, i).Some?
    ensures |Concat(TokensFrom(c, i).value)| > 0
    ensures !Juxtaposed(c[i - 1], Concat(TokensFrom(c, i).value)[0])
  {
    var g := GroupAt(c, i).value;
    var ts := TokensFrom(c, i).value;
    assert ts == g.tokens + TokensFrom(c, i + g.width).value;
    assert |g.tokens| > 0 && |g.tokens[0]| > 0;
    ConcatFirst(ts);
  }

  /** A token the rules write never contains an implicit product and never ends in a close
      bracket or a digit. */
  lemma RuleToken(t: string)
    requires t in {"*", "+", "-", "0-", "+0-", "1+0-"}
    ensures ExplicitProducts(t) && |t| > 0 && !IsClose(t[|t| - 1]) && !IsOperand(t[|t| - 1])
  {
  }

  /** Inside one group no implicit product appears, and a group that ends in a close bracket
      or a digit is that character alone, not followed by a digit or open bracket. */
  lemma GroupExplicitProducts(c: seq<char>, i: nat)
    requires i < |c| && GroupAt(c, i).Some?
    ensures var g := GroupAt(c, i).value; var x := Concat(g.tokens);
      && ExplicitProducts(x)
      && (|x| > 0 && (IsClose(x[|x| - 1]) || IsOperand(x[|x| - 1])) ==>
            g.tokens == [[c[i]]] && (i + 1 < |c| ==> !Juxtaposed(c[i], c[i + 1])))
  {
    var g := GroupAt(c, i).value;
    if g.tokens == [[c[i]]] {
      ConcatOne([c[i]]);
    } else if g.tokens == [[c[i]], "*"] {
      ConcatTwo([c[i]], "*");
      RuleToken("*");
      ExplicitProductsAppend([c[i]], "*");
    } else if g.tokens == [] {
      assert Concat(g.tokens) == "";
    } else {
      assert |g.tokens| == 1;
      var t := g.tokens[0];
      RuleToken(t);
      ConcatOne(t);
    }
  }

  lemma {:induction false} TokensExplicitProducts(c: seq<char>, i: nat)
    requires i <= |c|
    requires TokensFrom(c, i).Some?
    ensures ExplicitProducts(Concat(TokensFrom(c, i).value))
    decreases |c| - i
  {
    if i == |c| {
      assert Concat([]) == "";
    } else {
      var g := GroupAt(c, i).value;
      var rest := TokensFrom(c, i + g.width).value;
      TokensExplicitProducts(c, i + g.width);
      ConcatAppend(g.tokens, rest);
      GroupExplicitProducts(c, i);
      var x, y := Concat(g.tokens), Concat(rest);
      if |x| > 0 && |y| > 0 && (IsClose(x[|x| - 1]) || IsOperand(x[|x| - 1])) {
        TokensStart(c, i + 1);
      }
      ExplicitProductsAppend(x, y);
    }
  }

  /** Implicit multiplication is made explicit: in the output of a text without spaces, no
      close bracket is followed by a digit or an open bracket and no digit by an open
      bracket. */
  lemma NormalizedExplicitProducts(e: string)
    requires forall k :: 0 <= k < |e| ==> e[k] != ' '
    requires Normalized(e).Some?
    ensures ExplicitProducts(Normalized(e).value)
  {
    var c := Collapsed(GenericAll(e)).value;
    CollapsedFromInput(GenericAll(e));
    var ts := TokensFrom(c, 0).value;
    assert forall k :: 0 <= k < |c| ==> c[k] != ' ' by {
      forall k | 0 <= k < |c| ensures c[k] != ' ' {
        var m :| 0 <= m < |e| && GenericAll(e)[m] == c[k];
      }
    }
    TokensNoSpace(c, 0);
    JoinWithoutSpaces(ts);
    TokensExplicitProducts(c, 0);
  }

  /** One turn of the main loop of convertToProperExpression at position i: append c[i] as a
      token, add an explicit `*` or overwrite the last token where a rule applies, and say
      where the loop goes on (`ok` is false where the source reads past the end). */
  method EmitAt(c: seq<char>, i: nat, temp: seq<string>) returns (out: seq<string>, next: nat, ok: bool)
    requires i < |c|
    ensures ok == GroupAt(c, i).Some?
    ensures ok ==> out == temp + GroupAt(c, i).value.tokens && next == i + GroupAt(c, i).value.width
  {
    out := temp + [[c[i]]];
    next, ok := i + 1, true;
    if i + 1 < |c| {
      if IsClose(c[i]) && IsOperand(c[i + 1]) {
        out := out + ["*"];
      }
      if IsClose(c[i]) && IsOpen(c[i + 1]) {
        out := out + ["*"];
      }
      if IsOperand(c[i]) && IsOpen(c[i + 1]) {
        out := out + ["*"];
      }
      if c[i] == '-' && c[i + 1] == '-' {
        out := DropLast(out) + ["+"];
        next := i + 2;
        if i == 0 {
          out := DropLast(out);
          return;
        }
        if IsOpen(c[i - 1]) {
          if i + 2 == |c| {
            // the source reads the element after the last one
            ok := false;
            return;
          }
          if IsOpen(c[i + 2]) || IsOperand(c[i + 2]) {
            out := DropLast(out);
            return;
          }
        }
        return;
      }
      if c[i] == '+' && c[i + 1] == '-' {
        out := DropLast(out) + ["-"];
        next := i + 2;
        return;
      }
      if c[i] == '-' {
        if i == 0 || c[i - 1] == '+' || IsOpen(c[i + 1]) || IsOpen(c[i - 1]) {
          out := DropLast(out) + ["0-"];
        }
        if i != 0 {
          if IsClose(c[i - 1]) {
            out := DropLast(out) + ["+0-"];
          }
          if c[i - 1] == '*' || c[i - 1] == '/' {
            out := DropLast(out) + ["1+0-"];
          }
        }
      }
    }
  }

  /** convertToProperExpression, step by step as the source does it: map brackets to generic
      ones, collapse vacuous pairs, then walk the characters appending tokens to `temp`, and
      finally join the tokens. */
  method ConvertToProperExpression(e: string) returns (r: Option<string>)
    ensures r == Normalized(e)
  {
    var c: seq<char> := [];
    for k := 0 to |e|
      invariant c == GenericAll(e)[..k]
    {
      if IsOpen(e[k]) {
        c := c + ['('];
      } else if IsClose(e[k]) {
        c := c + [')'];
      } else {
        c := c + [e[k]];
      }
    }
    assert c == GenericAll(e);
    var collapsed := RemoveOpen(c);
    if collapsed.None? {
      return None;
    }
    c := collapsed.value;
    var temp: seq<string> := [];
    var i := 0;
    PrefixedAssoc([], [], TokensFrom(c, 0));
    while i < |c|
      invariant 0 <= i <= |c|
      invariant TokensFrom(c, 0) == Prefixed(temp, TokensFrom(c, i))
    {
      ghost var before, at := temp, i;
      var ok;
      temp, i, ok := EmitAt(c, i, temp);
      if !ok {
        return None;
      }
      PrefixedAssoc(before, GroupAt(c, at).value.tokens, TokensFrom(c, i));
    }
    assert temp + [] == temp;
    assert TokensFrom(c, 0) == Some(temp);
    var str := "";
    for k := 0 to |temp|
      invariant str == Join(temp[..k])
    {
      assert temp[..k + 1][..k] == temp[..k];
      if temp[k] != " " {
        str := str + temp[k];
      }
    }
    assert temp[..|temp|] == temp;
    return Some(str);
  }

  lemma TokensStep(c: seq<char>, i: nat, g: Group, rest: seq<string>)
    requires i < |c| && GroupAt(c, i) == Some(g)
    requires i + g.width <= |c| && TokensFrom(c, i + g.width) == Some(rest)
    ensures TokensFrom(c, i) == Some(g.tokens + rest)
  {
  }

  lemma ConcatCons(t: string, ts: seq<string>)
    ensures Concat([t] + ts) == t + Concat(ts)
  {
    ConcatAppend([t], ts);
    ConcatOne(t);
  }

  lemma ImplicitProductTokens()
    ensures TokensFrom("2(3)", 0) == Some(["2", "*", "(", "3", ")"])
  {
    var c := "2(3)";
    TokensStep(c, 3, Group([")"], 1), []);
    assert [")"] + [] == [")"];
    TokensStep(c, 2, Group(["3"], 1), [")"]);
    assert ["3"] + [")"] == ["3", ")"];
    TokensStep(c, 1, Group(["("], 1), ["3", ")"]);
    assert ["("] + ["3", ")"] == ["(", "3", ")"];
    TokensStep(c, 0, Group(["2", "*"], 1), ["(", "3", ")"]);
    assert ["2", "*"] + ["(", "3", ")"] == ["2", "*", "(", "3", ")"];
  }

  lemma ImplicitProductJoin()
    ensures var ts := ["2", "*", "(", "3", ")"];
      Concat(ts) == "2*(3)" && forall j :: 0 <= j < |ts| ==> ts[j] != " "
  {
    var ts := ["2", "*", "(", "3", ")"];
    assert ts == ["2"] + (["*"] + (["("] + (["3"] + [")"])));
    ConcatCons("2", ["*"] + (["("] + (["3"] + [")"])));
    ConcatCons("*", ["("] + (["3"] + [")"]));
    ConcatCons("(", ["3"] + [")"]);
    ConcatCons("3", [")"]);
    ConcatOne(")");
    assert "2" + ("*" + ("(" + ("3" + ")"))) == "2*(3)";
  }

  /** A digit before an open bracket gets an explicit product. */
  lemma ImplicitProductExample()
    ensures Normalized("2(3)") == Some("2*(3)")
  {
    var c := "2(3)";
    assert GenericAll(c) == c && NoEmptyPair(c);
    ImplicitProductTokens();
    ImplicitProductJoin();
    NormalizedFromText(c, c, ["2", "*", "(", "3", ")"], "2*(3)");
  }

  lemma NormalizedFromTokens(e: string, ts: seq<string>)
    requires NoEmptyPair(GenericAll(e)) && TokensFrom(GenericAll(e), 0) == Some(ts)
    requires forall j :: 0 <= j < |ts| ==> ts[j] != " "
    ensures Normalized(e) == Some(Concat(ts))
  {
    JoinWithoutSpaces(ts);
  }

  lemma NormalizedFromText(e: string, c: string, ts: seq<string>, out: string)
    requires GenericAll(e) == c && NoEmptyPair(c) && TokensFrom(c, 0) == Some(ts)
    requires forall j :: 0 <= j < |ts| ==> ts[j] != " "
    requires Concat(ts) == out
    ensures Normalized(e) == Some(out)
  {
    JoinWithoutSpaces(ts);
  }

  /** A doubled minus between operands becomes a plus. */
  lemma DoubleMinusExample()
    ensures Normalized("5--3") == Some("5+3")
  {
    var e := "5--3";
    assert GenericAll(e) == e;
    TokensStep(e, 3, Group(["3"], 1), []);
    TokensStep(e, 1, Group(["+"], 2), ["3"] + []);
    TokensStep(e, 0, Group(["5"], 1), ["+"] + (["3"] + []));
    var ts := ["5"] + (["+"] + (["3"] + []));
    assert ts == ["5"] + (["+"] + ["3"]);
    NormalizedFromTokens(e, ts);
    ConcatCons("5", ["+"] + ["3"]);
    ConcatCons("+", ["3"]);
    ConcatOne("3");
    assert "5" + ("+" + "3") == "5+3";
  }

  /** A leading minus becomes a subtraction from zero. */
  lemma LeadingMinusExample()
    ensures Normalized("-5+2") == Some("0-5+2")
  {
    var e := "-5+2";
    assert GenericAll(e) == e;
    TokensStep(e, 3, Group(["2"], 1), []);
    TokensStep(e, 2, Group(["+"], 1), ["2"] + []);
    TokensStep(e, 1, Group(["5"], 1), ["+"] + (["2"] + []));
    TokensStep(e, 0, Group(["0-"], 1), ["5"] + (["+"] + (["2"] + [])));
    var ts := ["0-"] + (["5"] + (["+"] + (["2"] + [])));
    assert ts == ["0-"] + (["5"] + (["+"] + ["2"]));
    NormalizedFromTokens(e, ts);
    ConcatCons("0-", ["5"] + (["+"] + ["2"]));
    ConcatCons("5", ["+"] + ["2"]);
    ConcatCons("+", ["2"]);
    ConcatOne("2");
    assert "0-" + ("5" + ("+" + "2")) == "0-5+2";
  }

  lemma ConcatSeven(a: string, b: string, c: string, d: string, e: string, f: string, g: string)
    ensures Concat([a, b, c, d, e, f, g]) == a + b + c + d + e + f + g
  {
    var t5 := [f] + [g];
    var t4 := [e] + t5;
    var t3 := [d] + t4;
    var t2 := [c] + t3;
    var t1 := [b] + t2;
    assert [a, b, c, d, e, f, g] == [a] + t1;
    ConcatCons(a, t1);
    ConcatCons(b, t2);
    ConcatCons(c, t3);
    ConcatCons(d, t4);
    ConcatCons(e, t5);
    ConcatCons(f, [g]);
    ConcatOne(g);
  }

  lemma GenericBracketsText()
    ensures GenericAll("{1}[2]") == "(1)(2)" && NoEmptyPair("(1)(2)")
  {
  }

  lemma GenericBracketsTokens()
    ensures TokensFrom("(1)(2)", 0) == Some(["(", "1", ")", "*", "(", "2", ")"])
  {
    var c := "(1)(2)";
    TokensStep(c, 5, Group([")"], 1), []);
    assert [")"] + [] == [")"];
    TokensStep(c, 4, Group(["2"], 1), [")"]);
    assert ["2"] + [")"] == ["2", ")"];
    TokensStep(c, 3, Group(["("], 1), ["2", ")"]);
    assert ["("] + ["2", ")"] == ["(", "2", ")"];
    TokensStep(c, 2, Group([")", "*"], 1), ["(", "2", ")"]);
    assert [")", "*"] + ["(", "2", ")"] == [")", "*", "(", "2", ")"];
    TokensStep(c, 1, Group(["1"], 1), [")", "*", "(", "2", ")"]);
    assert ["1"] + [")", "*", "(", "2", ")"] == ["1", ")", "*", "(", "2", ")"];
    TokensStep(c, 0, Group(["("], 1), ["1", ")", "*", "(", "2", ")"]);
    assert ["("] + ["1", ")", "*", "(", "2", ")"] == ["(", "1", ")", "*", "(", "2", ")"];
  }

  lemma GenericBracketsJoin()
    ensures var ts := ["(", "1", ")", "*", "(", "2", ")"];
      Concat(ts) == "(1)*(2)" && forall j :: 0 <= j < |ts| ==> ts[j] != " "
  {
    ConcatSeven("(", "1", ")", "*", "(", "2", ")");
    assert "(" + "1" + ")" + "*" + "(" + "2" + ")" == "(1)*(2)";
  }

  /** Brackets of every kind become generic ones, and a close bracket before an open one
      gets an explicit product. */
  lemma GenericBracketsExample()
    ensures Normalized("{1}[2]") == Some("(1)*(2)")
  {
    GenericBracketsText();
    GenericBracketsTokens();
    GenericBracketsJoin();
    NormalizedFromText("{1}[2]", "(1)(2)", ["(", "1", ")", "*", "(", "2", ")"], "(1)*(2)");
  }

  /** A minus after `*` becomes `1+0-`, so the product is taken with 1 and the operand is
      then subtracted. */
  lemma MinusAfterProductExample()
    ensures Normalized("2*-3") == Some("2*1+0-3")
  {
    var e := "2*-3";
    assert GenericAll(e) == e;
    TokensStep(e, 3, Group(["3"], 1), []);
    TokensStep(e, 2, Group(["1+0-"], 1), ["3"] + []);
    TokensStep(e, 1, Group(["*"], 1), ["1+0-"] + (["3"] + []));
    TokensStep(e, 0, Group(["2"], 1), ["*"] + (["1+0-"] + (["3"] + [])));
    var ts := ["2"] + (["*"] + (["1+0-"] + (["3"] + [])));
    assert ts == ["2"] + (["*"] + (["1+0-"] + ["3"]));
    NormalizedFromTokens(e, ts);
    ConcatCons("2", ["*"] + (["1+0-"] + ["3"]));
    ConcatCons("*", ["1+0-"] + ["3"]);
    ConcatCons("1+0-", ["3"]);
    ConcatOne("3");
    assert "2" + ("*" + ("1+0-" + "3")) == "2*1+0-3";
  }

  /** A plus followed by a minus becomes a single minus. */
  lemma PlusMinusExample()
    ensures Normalized("5+-3") == Some("5-3")
  {
    var e := "5+-3";
    assert GenericAll(e) == e;
    TokensStep(e, 3, Group(["3"], 1), []);
    TokensStep(e, 1, Group(["-"], 2), ["3"] + []);
    TokensStep(e, 0, Group(["5"], 1), ["-"] + (["3"] + []));
    var ts := ["5"] + (["-"] + (["3"] + []));
    assert ts == ["5"] + (["-"] + ["3"]);
    NormalizedFromTokens(e, ts);
    ConcatCons("5", ["-"] + ["3"]);
    ConcatCons("-", ["3"]);
    ConcatOne("3");
    assert "5" + ("-" + "3") == "5-3";
  }

  /** A doubled minus between an open bracket and a digit is dropped. */
  lemma DroppedDoubleMinusExample()
    ensures Normalized("(--3)") == Some("(3)")
  {
    var e := "(--3)";
    assert GenericAll(e) == e;
    assert NoEmptyPair(e);
    TokensStep(e, 4, Group([")"], 1), []);
    TokensStep(e, 3, Group(["3"], 1), [")"] + []);
    TokensStep(e, 1, Group([], 2), ["3"] + ([")"] + []));
    TokensStep(e, 0, Group(["("], 1), [] + (["3"] + ([")"] + [])));
    var ts := ["("] + ([] + (["3"] + ([")"] + [])));
    assert ts == ["("] + (["3"] + [")"]);
    NormalizedFromTokens(e, ts);
    ConcatCons("(", ["3"] + [")"]);
    ConcatCons("3", [")"]);
    ConcatOne(")");
    assert "(" + ("3" + ")") == "(3)";
  }

  lemma MinusAfterBracketTokens()
    ensures TokensFrom("(2)-3", 0) == Some(["(", "2", ")", "+0-", "3"])
  {
    var c := "(2)-3";
    TokensStep(c, 4, Group(["3"], 1), []);
    assert ["3"] + [] == ["3"];
    assert MinusToken(c, 3) == "+0-";
    TokensStep(c, 3, Group(["+0-"], 1), ["3"]);
    assert ["+0-"] + ["3"] == ["+0-", "3"];
    TokensStep(c, 2, Group([")"], 1), ["+0-", "3"]);
    assert [")"] + ["+0-", "3"] == [")", "+0-", "3"];
    TokensStep(c, 1, Group(["2"], 1), [")", "+0-", "3"]);
    assert ["2"] + [")", "+0-", "3"] == ["2", ")", "+0-", "3"];
    TokensStep(c, 0, Group(["("], 1), ["2", ")", "+0-", "3"]);
    assert ["("] + ["2", ")", "+0-", "3"] == ["(", "2", ")", "+0-", "3"];
  }

  lemma MinusAfterBracketJoin()
    ensures var ts := ["(", "2", ")", "+0-", "3"];
      Concat(ts) == "(2)+0-3" && forall j :: 0 <= j < |ts| ==> ts[j] != " "
  {
    var ts := ["(", "2", ")", "+0-", "3"];
    assert ts == ["("] + (["2"] + ([")"] + (["+0-"] + ["3"])));
    ConcatCons("(", ["2"] + ([")"] + (["+0-"] + ["3"])));
    ConcatCons("2", [")"] + (["+0-"] + ["3"]));
    ConcatCons(")", ["+0-"] + ["3"]);
    ConcatCons("+0-", ["3"]);
    ConcatOne("3");
    assert "(" + ("2" + (")" + ("+0-" + "3"))) == "(2)+0-3";
  }

  /** A minus after a close bracket becomes `+0-`. */
  lemma MinusAfterBracketExample()
    ensures Normalized("(2)-3") == Some("(2)+0-3")
  {
    var c := "(2)-3";
    assert GenericAll(c) == c && NoEmptyPair(c);
    MinusAfterBracketTokens();
    MinusAfterBracketJoin();
    NormalizedFromText(c, c, ["(", "2", ")", "+0-", "3"], "(2)+0-3");
  }

  lemma SpacedProductTokens()
    ensures TokensFrom("2 (3)", 0) == Some(["2", " ", "(", "3", ")"])
  {
    var c := "2 (3)";
    TokensStep(c, 4, Group([")"], 1), []);
    TokensStep(c, 3, Group(["3"], 1), [")"] + []);
    TokensStep(c, 2, Group(["("], 1), ["3"] + ([")"] + []));
    TokensStep(c, 1, Group([" "], 1), ["("] + (["3"] + ([")"] + [])));
    TokensStep(c, 0, Group(["2"], 1), [" "] + (["("] + (["3"] + ([")"] + []))));
    assert ["2"] + ([" "] + (["("] + (["3"] + ([")"] + [])))) == ["2", " ", "(", "3", ")"];
  }

  lemma SpacedProductJoin()
    ensures Join(["2", " ", "(", "3", ")"]) == "2(3)"
  {
    var ts := ["2", " ", "(", "3", ")"];
    assert ts[..4] == ["2", " ", "(", "3"] && ts[..4][..3] == ["2", " ", "("];
    assert ts[..4][..3][..2] == ["2", " "] && ts[..4][..3][..2][..1] == ["2"];
    assert Join(["2"]) == "2" by { assert ["2"][..0] == []; }
    assert Join(["2", " "]) == "2";
    assert Join(["2", " ", "("]) == "2(";
    assert Join(["2", " ", "(", "3"]) == "2(3";
  }

  /** The explicit product is decided before spaces are dropped, so a space between a digit
      and an open bracket hides the product: `2 (3)` comes out as `2(3)`. */
  lemma SpacedProductExample()
    ensures Normalized("2 (3)") == Some("2(3)")
    ensures !ExplicitProducts("2(3)")
  {
    var e := "2 (3)";
    assert GenericAll(e) == e;
    assert NoEmptyPair(e);
    assert Collapsed(GenericAll(e)) == Some(e);
    SpacedProductTokens();
    SpacedProductJoin();
    assert Juxtaposed("2(3)"[0], "2(3)"[1]);
  }

  /** An open bracket left at the end, or a `--` after an open bracket at the end, makes the
      source read past the end of the list. */
  lemma ThrowExamples()
    ensures Normalized("2+(") == None
    ensures Normalized("(--") == None
  {
    TrailingOpenFails(GenericAll("2+("));
    var c := "(--";
    assert GenericAll(c) == c;
    assert NoEmptyPair(c);
    assert GroupAt(c, 1) == None;
    assert TokensFrom(c, 1) == None;
    assert GroupAt(c, 0) == Some(Group(["("], 1));
  }
}
