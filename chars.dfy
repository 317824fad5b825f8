/** The character classes every stage of the calculator shares. */
module Chars {

  predicate IsDecimal(ch: char) { ch == '.' }

  /** A decimal digit; the source calls digits operands. */
  predicate IsOperand(ch: char) { '0' <= ch <= '9' }

  predicate IsOpen(ch: char) { ch == '(' || ch == '{' || ch == '[' }

  predicate IsClose(ch: char) { ch == ')' || ch == '}' || ch == ']' }

  predicate IsOperator(ch: char) { ch == '+' || ch == '-' || ch == '/' || ch == '*' || ch == '^' }

  /** The close bracket of the same kind as the open bracket `top`. */
  function CloserOf(top: char): (closer: char)
    requires IsOpen(top)
    ensures IsClose(closer)
  {
    match top
    case '(' => ')'
    case '{' => '}'
    case '[' => ']'
  }

  /** `ch` closes the bracket `top` that is on top of the validator's stack. */
  predicate Closes(top: char, ch: char)
  {
    (top == '(' && ch == ')') || (top == '{' && ch == '}') || (top == '[' && ch == ']')
  }

  /** Each open bracket is closed by exactly one character, its own kind of close bracket,
      and nothing else closes anything. */
  lemma ClosesExactly(top: char, ch: char)
    ensures Closes(top, ch) <==> IsOpen(top) && ch == CloserOf(top)
  {
  }

  /** The five classes are pairwise disjoint, so a character takes at most one branch. */
  lemma ClassesDisjoint(ch: char)
    ensures IsOperand(ch) ==> !IsDecimal(ch) && !IsOperator(ch) && !IsOpen(ch) && !IsClose(ch)
    ensures IsDecimal(ch) ==> !IsOperator(ch) && !IsOpen(ch) && !IsClose(ch)
    ensures IsOperator(ch) ==> !IsOpen(ch) && !IsClose(ch)
    ensures IsOpen(ch) ==> !IsClose(ch)
  {
  }
}
