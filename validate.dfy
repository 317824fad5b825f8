/** isEquation / isEquationHelper: a left-to-right scan with a stack of open brackets and a
    running verdict that starts out false and becomes true at the first character that is not
    an open bracket. */
module Validate {
  import opened Chars
  import opened Outcomes

  /** The characters the validator accepts at all. */
  predicate InAlphabet(ch: char)
  {
    IsDecimal(ch) || IsOperand(ch) || IsOperator(ch) || IsOpen(ch) || IsClose(ch)
  }

  /** The state of the scan: still going with a bracket stack (top at the end) and the
      running verdict, or finished with a verdict; None where the source reads past the end
      of the text. */
  datatype Scan = Running(open: seq<char>, result: bool) | Done(verdict: Option<bool>)

  /** One call of isEquationHelper at position i < |c|, in the order of its branches. */
  function Advance(c: string, i: nat, open: seq<char>, result: bool): Scan
    requires i < |c|
  {
    if !InAlphabet(c[i]) then Done(Some(false))
    else if IsDecimal(c[i]) && i + 1 == |c| then Done(None)
    else if IsDecimal(c[i]) && (IsOperator(c[i + 1]) || IsOpen(c[i + 1]) || IsClose(c[i + 1])) then
      Done(Some(false))
    else if IsOpen(c[i]) then Running(open + [c[i]], result)
    else if open == [] && IsClose(c[i]) then Done(Some(false))
    else if open != [] && Closes(open[|open| - 1], c[i]) then Running(open[..|open| - 1], true)
    else if IsOperator(c[i]) then
      if c[i] == '-' && i + 1 == |c| then Done(None)
      else if c[i] == '-' && !(c[i + 1] == '/' || c[i + 1] == '*' || c[i + 1] == '+') then
        Running(open, true)
      else if i == 0 || i == |c| - 1 || (IsOperator(c[i + 1]) && c[i + 1] != '-')
        || (IsOpen(c[i - 1]) && IsOperand(c[i + 1])) || (IsClose(c[i + 1]) && IsOperand(c[i - 1]))
      then Done(Some(false))
      else Running(open, true)
    else Running(open, true)
  }

  /** The state after the first k characters. */
  function ScanTo(c: string, k: nat): Scan
    requires k <= |c|
  {
    if k == 0 then Running([], false)
    else match ScanTo(c, k - 1)
      case Done(v) => Done(v)
      case Running(open, result) => Advance(c, k - 1, open, result)
  }

  /** What isEquation returns for `c`; None where it throws. */
  function IsEquationSpec(c: string): Option<bool>
  {
    match ScanTo(c, |c|)
    case Done(v) => v
    case Running(open, result) => Some(open == [] && result)
  }

  /** isEquation, with the recursion of isEquationHelper as a loop over the index and the
      shared bracket stack as a local sequence. */
  method IsEquation(e: string) returns (r: Option<bool>)
    ensures r == IsEquationSpec(e)
  {
    var open: seq<char> := [];
    var result := false;
    var index := 0;
    while index < |e|
      invariant 0 <= index <= |e|
      invariant ScanTo(e, index) == Running(open, result)
    {
      var ch := e[index];
      if !(IsDecimal(ch) || IsOperand(ch) || IsOperator(ch) || IsOpen(ch) || IsClose(ch)) {
        r := Some(false);
      } else if IsDecimal(ch) && index + 1 == |e| {
        // the source reads the element after the last one
        r := None;
      } else if IsDecimal(ch) && (IsOperator(e[index + 1]) || IsOpen(e[index + 1]) || IsClose(e[index + 1])) {
        r := Some(false);
      } else if IsOpen(ch) {
        open := open + [ch];
        index := index + 1;
        continue;
      } else if open == [] && IsClose(ch) {
        r := Some(false);
      } else if open != [] && Closes(open[|open| - 1], ch) {
        open := open[..|open| - 1];
        result := true;
        index := index + 1;
        continue;
      } else if IsOperator(ch) {
        if ch == '-' && index + 1 == |e| {
          // the source reads the element after the last one
          r := None;
        } else if ch == '-' && !(e[index + 1] == '/' || e[index + 1] == '*' || e[index + 1] == '+') {
          result := true;
          index := index + 1;
          continue;
        } else if index == 0 || index == |e| - 1 || (IsOperator(e[index + 1]) && e[index + 1] != '-')
          || (IsOpen(e[index - 1]) && IsOperand(e[index + 1]))
          || (IsClose(e[index + 1]) && IsOperand(e[index - 1]))
        {
          r := Some(false);
        } else {
          result := true;
          index := index + 1;
          continue;
        }
      } else {
        result := true;
        index := index + 1;
        continue;
      }
      assert ScanTo(e, index + 1) == Done(r);
      DoneStays(e, index + 1);
      return;
    }
    r := Some(open == [] && result);
  }

  /** Once the scan has a verdict, the rest of the text does not change it. */
  lemma {:induction false} DoneStays(c: string, k: nat)
    requires k <= |c| && ScanTo(c, k).Done?
    ensures ScanTo(c, |c|) == ScanTo(c, k)
    decreases |c| - k
  {
    if k < |c| {
      DoneStays(c, k + 1);
    }
  }

  /** The bracket stack alone: an open bracket is pushed, a close bracket on an empty stack
      is an error, a close bracket of the kind on top pops it and any other close bracket is
      skipped. */
  function BracketStep(open: seq<char>, ch: char): Option<seq<char>>
  {
    if IsOpen(ch) then Some(open + [ch])
    else if !IsClose(ch) then Some(open)
    else if open == [] then None
    else if Closes(open[|open| - 1], ch) then Some(open[..|open| - 1])
    else Some(open)
  }

  function Brackets(c: string, k: nat): Option<seq<char>>
    requires k <= |c|
  {
    if k == 0 then Some([])
    else match Brackets(c, k - 1)
      case None => None
      case Some(open) => BracketStep(open, c[k - 1])
  }

  /** The operator at i is accepted: a `-` not followed by `/`, `*` or `+`, or any operator
      that is neither first nor last, is not followed by an operator other than `-`, and does
      not stand between an open bracket and a digit or between a digit and a close bracket. */
  predicate OperatorOk(c: string, i: nat)
    requires i < |c|
  {
    && i + 1 < |c|
    && ((c[i] == '-' && !(c[i + 1] == '/' || c[i + 1] == '*' || c[i + 1] == '+'))
        || !(i == 0 || (IsOperator(c[i + 1]) && c[i + 1] != '-')
             || (IsOpen(c[i - 1]) && IsOperand(c[i + 1]))
             || (IsClose(c[i + 1]) && IsOperand(c[i - 1]))))
  }

  /** The checks at position i that do not depend on the bracket stack. */
  predicate LocalOk(c: string, i: nat)
    requires i < |c|
  {
    && InAlphabet(c[i])
    && (IsDecimal(c[i]) ==>
          i + 1 < |c| && !IsOperator(c[i + 1]) && !IsOpen(c[i + 1]) && !IsClose(c[i + 1]))
    && (IsOperator(c[i]) ==> OperatorOk(c, i))
  }

  predicate LocalOkTo(c: string, k: nat)
    requires k <= |c|
  {
    forall i :: 0 <= i < k ==> LocalOk(c, i)
  }

  /** Some character before k is not an open bracket. */
  predicate SeenOther(c: string, k: nat)
    requires k <= |c|
  {
    exists i :: 0 <= i < k && !IsOpen(c[i])
  }

  /** One step of the scan: it goes on exactly when the character passes its local checks
      and the bracket stack does not underflow; it then applies the bracket step and sets
      the verdict once anything but an open bracket is seen. A step never finishes with
      true. */
  lemma AdvanceMeaning(c: string, i: nat, open: seq<char>, result: bool)
    requires i < |c|
    ensures var a := Advance(c, i, open, result);
      && (a.Running? <==> LocalOk(c, i) && BracketStep(open, c[i]).Some?)
      && (a.Running? ==> a.open == BracketStep(open, c[i]).value && a.result == (result || !IsOpen(c[i])))
      && (a.Done? ==> a.verdict != Some(true))
  {
    ClassesDisjoint(c[i]);
  }

  lemma SeenOtherStep(c: string, i: nat)
    requires i < |c|
    ensures SeenOther(c, i + 1) == (SeenOther(c, i) || !IsOpen(c[i]))
  {
    if SeenOther(c, i + 1) && IsOpen(c[i]) {
      var j :| 0 <= j < i + 1 && !IsOpen(c[j]);
      assert j < i;
    }
  }

  /** The scan is still going after k characters exactly when every one of them passed its
      local checks and the bracket stack never underflowed; it then holds that bracket stack,
      and its verdict says whether anything but an open bracket was seen. A finished scan
      never says true. */
  lemma {:induction false} ScanMeaning(c: string, k: nat)
    requires k <= |c|
    ensures ScanTo(c, k).Running? <==> LocalOkTo(c, k) && Brackets(c, k).Some?
    ensures ScanTo(c, k).Running? ==>
      ScanTo(c, k).open == Brackets(c, k).value && ScanTo(c, k).result == SeenOther(c, k)
    ensures ScanTo(c, k).Done? ==> ScanTo(c, k).verdict != Some(true)
  {
    if k > 0 {
      var i := k - 1;
      ScanMeaning(c, i);
      assert LocalOkTo(c, k) <==> LocalOkTo(c, i) && LocalOk(c, i);
      match ScanTo(c, i)
      case Running(open, result) =>
        AdvanceMeaning(c, i, open, result);
        SeenOtherStep(c, i);
      case Done(v) =>
    }
  }

  lemma {:induction false} AllOpen(c: string, k: nat)
    requires k <= |c| && !SeenOther(c, k)
    ensures Brackets(c, k) == Some(c[..k])
  {
    if k > 0 {
      assert !SeenOther(c, k - 1);
      AllOpen(c, k - 1);
      assert c[..k] == c[..k - 1] + [c[k - 1]];
    }
  }

  /** isEquation accepts exactly the non-empty texts whose every character passes its local
      checks and whose brackets all close, none of them against an empty stack. */
  lemma IsEquationMeaning(c: string)
    ensures IsEquationSpec(c) == Some(true) <==>
      |c| > 0 && LocalOkTo(c, |c|) && Brackets(c, |c|) == Some([])
  {
    ScanMeaning(c, |c|);
    if |c| > 0 && LocalOkTo(c, |c|) && Brackets(c, |c|) == Some([]) && !SeenOther(c, |c|) {
      AllOpen(c, |c|);
      assert false;
    }
  }

  /** Empty text is rejected, because the running verdict starts out false. */
  lemma EmptyRejected()
    ensures IsEquationSpec("") == Some(false)
  {
  }

  /** The scan throws only on a `.` or `-` in the last position. */
  lemma {:induction false} ScanThrows(c: string, k: nat)
    requires k <= |c| && ScanTo(c, k) == Done(None)
    ensures |c| > 0 && (c[|c| - 1] == '.' || c[|c| - 1] == '-')
  {
    if ScanTo(c, k - 1) == Done(None) {
      ScanThrows(c, k - 1);
    }
  }

  lemma OnlyTrailingThrows(c: string)
    requires IsEquationSpec(c).None?
    ensures |c| > 0 && (c[|c| - 1] == '.' || c[|c| - 1] == '-')
  {
    ScanThrows(c, |c|);
  }

  /** Digits around a single `+` are accepted and a doubled `+` is not. */
  lemma OperatorExamples()
    ensures IsEquationSpec("2+3") == Some(true)
    ensures IsEquationSpec("2++3") == Some(false)
  {
    var a := "2+3";
    assert ScanTo(a, 1) == Running([], true);
    assert ScanTo(a, 2) == Running([], true);
    assert ScanTo(a, 3) == Running([], true);
    var b := "2++3";
    assert ScanTo(b, 1) == Running([], true);
    assert ScanTo(b, 2) == Done(Some(false));
    DoneStays(b, 2);
  }

  /** An unclosed bracket is rejected, a close bracket of the wrong kind is skipped without
      popping, so `(2+3]` is rejected while `(])` is accepted. */
  lemma BracketExamples()
    ensures IsEquationSpec("(2+3") == Some(false)
    ensures IsEquationSpec("(2+3]") == Some(false)
    ensures IsEquationSpec("(])") == Some(true)
  {
    var a := "(2+3]";
    assert ScanTo(a, 1) == Running(['('], false);
    assert ScanTo(a, 2) == Running(['('], true);
    assert ScanTo(a, 3) == Running(['('], true);
    assert ScanTo(a, 4) == Running(['('], true);
    assert ScanTo(a, 5) == Running(['('], true);
    var b := "(2+3";
    assert ScanTo(b, 1) == Running(['('], false);
    assert ScanTo(b, 2) == Running(['('], true);
    assert ScanTo(b, 3) == Running(['('], true);
    assert ScanTo(b, 4) == Running(['('], true);
    var d := "(])";
    assert ScanTo(d, 1) == Running(['('], false);
    assert ScanTo(d, 2) == Running(['('], true);
    assert ScanTo(d, 3) == Running([], true);
  }

  /** A trailing `.` or `-` makes the source read past the end. */
  lemma ThrowExamples()
    ensures IsEquationSpec("2.") == None
    ensures IsEquationSpec("2-") == None
  {
    var a := "2.";
    assert ScanTo(a, 1) == Running([], true);
    assert ScanTo(a, 2) == Done(None);
    var b := "2-";
    assert ScanTo(b, 1) == Running([], true);
    assert ScanTo(b, 2) == Done(None);
  }
}
