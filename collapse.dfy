/** Removal of vacuous bracket pairs (removeOpen): the list is scanned from the front for an
    open bracket followed by a close bracket, that pair is deleted and the scan starts over,
    until no such pair is left. */
module Collapse {
  import opened Chars
  import opened Outcomes

  /** The scan stops at position j: an open bracket that is either the last character (the
      source then reads past the end) or directly followed by a close bracket. */
  predicate StopsAt(c: seq<char>, j: nat)
    requires j < |c|
  {
    IsOpen(c[j]) && (j + 1 == |c| || IsClose(c[j + 1]))
  }

  /** No position stops the scan: no `()` pair, and no open bracket at the end. */
  predicate NoEmptyPair(c: seq<char>)
  {
    forall j :: 0 <= j < |c| ==> !StopsAt(c, j)
  }

  /** The first position at or after `from` where the scan stops, or |c| when there is none. */
  function FirstStop(c: seq<char>, from: nat): (k: nat)
    requires from <= |c|
    ensures from <= k <= |c|
    ensures k < |c| ==> StopsAt(c, k)
    ensures forall j :: from <= j < k ==> !StopsAt(c, j)
    decreases |c| - from
  {
    if from == |c| then |c|
    else if StopsAt(c, from) then from
    else FirstStop(c, from + 1)
  }

  /** The characters of `c` that are not brackets, in order. */
  function Unbracketed(c: seq<char>): seq<char>
  {
    if c == [] then []
    else (if IsOpen(c[0]) || IsClose(c[0]) then [] else [c[0]]) + Unbracketed(c[1..])
  }

  /** The number of characters of `c` that satisfy `p`. */
  function Count(c: seq<char>, p: char -> bool): nat
  {
    if c == [] then 0 else (if p(c[0]) then 1 else 0) + Count(c[1..], p)
  }

  /** The fixed point that the recursive removeOpen computes; None when the scan reaches an
      open bracket in the last position. */
  function Collapsed(c: seq<char>): (r: Option<seq<char>>)
    ensures NoEmptyPair(c) ==> r == Some(c)
    decreases |c|
  {
    var k := FirstStop(c, 0);
    if k == |c| then Some(c)
    else if k + 1 == |c| then None
    else Collapsed(c[..k] + c[k + 2..])
  }

  lemma {:induction false} UnbracketedAppend(a: seq<char>, b: seq<char>)
    ensures Unbracketed(a + b) == Unbracketed(a) + Unbracketed(b)
    decreases |a|
  {
    if a == [] {
      assert a + b == b;
    } else {
      assert (a + b)[1..] == a[1..] + b;
      UnbracketedAppend(a[1..], b);
    }
  }

  lemma {:induction false} CountAppend(a: seq<char>, b: seq<char>, p: char -> bool)
    ensures Count(a + b, p) == Count(a, p) + Count(b, p)
    decreases |a|
  {
    if a == [] {
      assert a + b == b;
    } else {
      assert (a + b)[1..] == a[1..] + b;
      CountAppend(a[1..], b, p);
    }
  }

  lemma EmptyPair(pair: seq<char>)
    requires |pair| == 2 && IsOpen(pair[0]) && IsClose(pair[1])
    ensures Unbracketed(pair) == []
    ensures Count(pair, IsOpen) == 1 && Count(pair, IsClose) == 1
  {
    var tail := pair[1..];
    assert tail == [pair[1]] && tail[1..] == [];
    assert Unbracketed(tail) == [];
    assert Count(tail, IsOpen) == 0 && Count(tail, IsClose) == 1;
  }

  lemma DeleteMiddle(a: seq<char>, m: seq<char>, b: seq<char>)
    requires |m| == 2 && IsOpen(m[0]) && IsClose(m[1])
    ensures Unbracketed(a + b) == Unbracketed(a + (m + b))
    ensures Count(a + b, IsOpen) + 1 == Count(a + (m + b), IsOpen)
    ensures Count(a + b, IsClose) + 1 == Count(a + (m + b), IsClose)
  {
    EmptyPair(m);
    UnbracketedAppend(m, b);
    UnbracketedAppend(a, m + b);
    CountAppend(m, b, IsOpen);
    CountAppend(a, m + b, IsOpen);
    CountAppend(m, b, IsClose);
    CountAppend(a, m + b, IsClose);
    UnbracketedAppend(a, b);
    CountAppend(a, b, IsOpen);
    CountAppend(a, b, IsClose);
  }

  lemma SplitAround(c: seq<char>, k: nat)
    requires k + 2 <= |c|
    ensures c == c[..k] + (c[k..k + 2] + c[k + 2..])
  {
  }

  /** Deleting the `()` pair at k leaves the other characters, in order, and takes away one
      open and one close bracket. */
  lemma DeletePair(c: seq<char>, k: nat)
    requires k + 1 < |c| && IsOpen(c[k]) && IsClose(c[k + 1])
    ensures Unbracketed(c[..k] + c[k + 2..]) == Unbracketed(c)
    ensures Count(c[..k] + c[k + 2..], IsOpen) + 1 == Count(c, IsOpen)
    ensures Count(c[..k] + c[k + 2..], IsClose) + 1 == Count(c, IsClose)
  {
    var a, m, b := c[..k], c[k..k + 2], c[k + 2..];
    SplitAround(c, k);
    DeleteMiddle(a, m, b);
  }

  /** `a` is `b` with some characters left out, the rest in their order. */
  predicate SubSeq(a: seq<char>, b: seq<char>)
    decreases |b|
  {
    a == [] || (b != [] && ((a[0] == b[0] && SubSeq(a[1..], b[1..])) || SubSeq(a, b[1..])))
  }

  lemma {:induction false} SubSeqRefl(a: seq<char>)
    ensures SubSeq(a, a)
    decreases |a|
  {
    if a != [] {
      SubSeqRefl(a[1..]);
    }
  }

  lemma {:induction false} SubSeqTrans(a: seq<char>, b: seq<char>, c: seq<char>)
    requires SubSeq(a, b) && SubSeq(b, c)
    ensures SubSeq(a, c)
    decreases |c|
  {
    if a != [] {
      if SubSeq(b, c[1..]) {
        SubSeqTrans(a, b, c[1..]);
      } else if a[0] == b[0] && SubSeq(a[1..], b[1..]) {
        SubSeqTrans(a[1..], b[1..], c[1..]);
      } else {
        SubSeqTrans(a, b[1..], c[1..]);
      }
    }
  }

  /** Leaving out a prefix keeps a subsequence. */
  lemma {:induction false} SubSeqSkip(m: seq<char>, b: seq<char>)
    ensures SubSeq(b, m + b)
    decreases |m|
  {
    if m == [] {
      assert m + b == b;
      SubSeqRefl(b);
    } else {
      assert (m + b)[1..] == m[1..] + b;
      SubSeqSkip(m[1..], b);
    }
  }

  /** A common prefix keeps a subsequence. */
  lemma {:induction false} SubSeqKeep(p: seq<char>, a: seq<char>, b: seq<char>)
    requires SubSeq(a, b)
    ensures SubSeq(p + a, p + b)
    decreases |p|
  {
    if p == [] {
      assert p + a == a && p + b == b;
    } else {
      SubSeqKeep(p[1..], a, b);
      assert (p + a)[1..] == p[1..] + a && (p + b)[1..] == p[1..] + b;
      assert (p + a)[0] == (p + b)[0];
    }
  }

  /** Deleting the two characters at k leaves a subsequence. */
  lemma DeleteSub(c: seq<char>, k: nat)
    requires k + 2 <= |c|
    ensures SubSeq(c[..k] + c[k + 2..], c)
  {
    SplitAround(c, k);
    SubSeqSkip(c[k..k + 2], c[k + 2..]);
    SubSeqKeep(c[..k], c[k + 2..], c[k..k + 2] + c[k + 2..]);
  }

  /** The collapse leaves no vacuous pair behind. */
  lemma {:induction false} CollapsedNoEmptyPair(c: seq<char>)
    requires Collapsed(c).Some?
    ensures NoEmptyPair(Collapsed(c).value)
    decreases |c|
  {
    var k := FirstStop(c, 0);
    if k < |c| {
      CollapsedNoEmptyPair(c[..k] + c[k + 2..]);
    }
  }

  /** The collapse removes whole `()` pairs and nothing else: the result is the input with
      some characters left out and the rest in their order, the characters left out are
      brackets, and as many open as close brackets disappear. */
  lemma {:induction false} CollapsedRemovesPairs(c: seq<char>)
    requires Collapsed(c).Some?
    ensures var r := Collapsed(c).value;
      && Unbracketed(r) == Unbracketed(c)
      && |r| <= |c|
      && Count(c, IsOpen) - Count(r, IsOpen) == (|c| - |r|) / 2
      && Count(c, IsClose) - Count(r, IsClose) == (|c| - |r|) / 2
      && (|c| - |r|) % 2 == 0
      && SubSeq(r, c)
    decreases |c|
  {
    var k := FirstStop(c, 0);
    if k < |c| {
      var d := c[..k] + c[k + 2..];
      DeletePair(c, k);
      CollapsedRemovesPairs(d);
      DeleteSub(c, k);
      SubSeqTrans(Collapsed(d).value, d, c);
    } else {
      SubSeqRefl(c);
    }
  }

  lemma DeletedFromInput(c: seq<char>, k: nat, x: char)
    requires k + 2 <= |c| && x in c[..k] + c[k + 2..]
    ensures x in c
  {
    var d := c[..k] + c[k + 2..];
    var m :| 0 <= m < |d| && d[m] == x;
    if m < k {
      assert c[m] == x;
    } else {
      assert c[m + 2] == x;
    }
  }

  /** Every character of the result comes from the input. */
  lemma {:induction false} CollapsedFromInput(c: seq<char>)
    requires Collapsed(c).Some?
    ensures forall j :: 0 <= j < |Collapsed(c).value| ==> Collapsed(c).value[j] in c
    decreases |c|
  {
    var k := FirstStop(c, 0);
    if k < |c| {
      var d := c[..k] + c[k + 2..];
      CollapsedFromInput(d);
      var r := Collapsed(d).value;
      forall j | 0 <= j < |r|
        ensures r[j] in c
      {
        DeletedFromInput(c, k, r[j]);
      }
    }
  }

  /** A trailing open bracket can never be removed, so the collapse fails on it. */
  lemma {:induction false} TrailingOpenFails(c: seq<char>)
    requires |c| > 0 && IsOpen(c[|c| - 1])
    ensures Collapsed(c).None?
    decreases |c|
  {
    var k := FirstStop(c, 0);
    assert StopsAt(c, |c| - 1);
    if k + 1 < |c| {
      var d := c[..k] + c[k + 2..];
      assert k + 1 != |c| - 1 by { ClassesDisjoint(c[|c| - 1]); }
      assert d[|d| - 1] == c[|c| - 1];
      TrailingOpenFails(d);
    }
  }

  /** The collapse is idempotent. */
  lemma CollapsedIdempotent(c: seq<char>)
    requires Collapsed(c).Some?
    ensures Collapsed(Collapsed(c).value) == Collapsed(c)
  {
    CollapsedNoEmptyPair(c);
  }

  /** removeOpen: deletes the first vacuous pair in place and starts the scan over, until the
      scan finds none; fails when the scan reaches an open bracket in the last position. */
  method RemoveOpen(c0: seq<char>) returns (r: Option<seq<char>>)
    ensures r == Collapsed(c0)
  {
    var c := c0;
    var i := 0;
    while i < |c|
      invariant 0 <= i <= |c|
      invariant Collapsed(c) == Collapsed(c0)
      invariant forall j :: 0 <= j < i ==> !StopsAt(c, j)
      decreases |c|, |c| - i
    {
      if IsOpen(c[i]) {
        if i + 1 == |c| {
          // the source reads the element after the last one
          assert StopsAt(c, i);
          return None;
        }
        if IsClose(c[i + 1]) {
          assert StopsAt(c, i);
          c := c[..i] + c[i + 2..];
          i := 0;
          continue;
        }
      }
      i := i + 1;
    }
    return Some(c);
  }
}
