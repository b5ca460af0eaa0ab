/** The RPN evaluator of mathExprParser.js lines 244-265. It reduces the
    postfix sequence in place: a cursor walks right over operands, and an
    operator with two numeric entries just before it collapses those three
    entries into one. The prefix left of the cursor plays the role of an
    operand stack, which is what `RunStack` makes explicit. */
module Evaluator {
  import opened Tokens
  import opened OperatorTable

  /** Entries the evaluator acts on; anything else is skipped over. */
  predicate IsOperatorToken(t: Token)
  {
    t.Op? && IsValidOperator(t.symbol)
  }

  /** `parseFloat` of the first entry once the loop has stopped. */
  function Final(s: seq<Token>): Result<real>
  {
    if |s| > 0 && s[0].Num? then Success(s[0].value) else Failure(NotANumber)
  }

  /** The splice of line 258: entries i-2, i-1 and i become the one entry t. */
  function Collapse(s: seq<Token>, i: nat, t: Token): (r: seq<Token>)
    requires 2 <= i < |s|
    ensures |r| == |s| - 2
    ensures r[..i - 2] == s[..i - 2] && r[i - 2] == t && r[i - 1..] == s[i + 1..]
  {
    s[..i - 2] + [t] + s[i + 1..]
  }

  /** The loop of lines 247-262 from cursor `i`. */
  function Reduce(s: seq<Token>, i: nat): Result<real>
    requires i <= |s|
    decreases 3 * |s| - i
  {
    if |s| <= 1 || i == |s| then Final(s)
    else if !IsOperatorToken(s[i]) then Reduce(s, i + 1)
    else if i >= 2 && s[i - 2].Num? && s[i - 1].Num? then
      match Execute(s[i].symbol, s[i - 2].value, s[i - 1].value)
      case Success(v) => Reduce(Collapse(s, i, Num(v)), i - 1)
      case Failure(e) => Failure(e)
    else Failure(NotANumber)
  }

  /** Reference evaluator: the textbook operand-stack reading of a postfix
      sequence. Operands and unknown entries are pushed; an operator pops
      two numbers and pushes its result. */
  function RunStack(rest: seq<Token>, stack: seq<Token>): Result<seq<Token>>
    decreases |rest|
  {
    if rest == [] then Success(stack)
    else if !IsOperatorToken(rest[0]) then RunStack(rest[1..], stack + [rest[0]])
    else if |stack| >= 2 && stack[|stack| - 2].Num? && stack[|stack| - 1].Num? then
      match Execute(rest[0].symbol, stack[|stack| - 2].value, stack[|stack| - 1].value)
      case Success(v) => RunStack(rest[1..], stack[..|stack| - 2] + [Num(v)])
      case Failure(e) => Failure(e)
    else Failure(NotANumber)
  }

  /** The stack evaluator's answer: its bottom entry, which must be a number. */
  function StackResult(s: seq<Token>): Result<real>
  {
    match RunStack(s, [])
    case Success(stack) => Final(stack)
    case Failure(e) => Failure(e)
  }

  /** From any cursor position, the in-place reduction computes what the
      stack evaluator computes with the prefix left of the cursor as its
      stack and the rest as its input. */
  lemma {:induction false} ReduceIsStackEvaluation(s: seq<Token>, i: nat)
    requires i <= |s|
    ensures Reduce(s, i) == (match RunStack(s[i..], s[..i])
                             case Success(stack) => Final(stack)
                             case Failure(e) => Failure(e))
    decreases 3 * |s| - i
  {
    if i == |s| {
      assert s[i..] == [] && s[..i] == s;
    } else if |s| <= 1 {
      assert i == 0 && s[i..] == s && s[..i] == [];
      assert s[1..] == [];
    } else {
      assert s[i..][0] == s[i] && s[i..][1..] == s[i + 1..];
      if !IsOperatorToken(s[i]) {
        assert s[..i] + [s[i]] == s[..i + 1];
        ReduceIsStackEvaluation(s, i + 1);
      } else if i >= 2 && s[i - 2].Num? && s[i - 1].Num? {
        var stack := s[..i];
        assert stack[|stack| - 2] == s[i - 2] && stack[|stack| - 1] == s[i - 1];
        match Execute(s[i].symbol, s[i - 2].value, s[i - 1].value)
        case Success(v) =>
          var s' := Collapse(s, i, Num(v));
          assert s'[..i - 1] == stack[..|stack| - 2] + [Num(v)];
          ReduceIsStackEvaluation(s', i - 1);
        case Failure(e) =>
      }
    }
  }

  /** The evaluator's entry point (`RPNToResult`): the result is that of the
      operand-stack evaluator, on every token sequence. */
  function RpnToResult(s: seq<Token>): (r: Result<real>)
    ensures r == StackResult(s)
  {
    ReduceIsStackEvaluation(s, 0);
    assert s[0..] == s && s[..0] == [];
    Reduce(s, 0)
  }

  /** The same loop written imperatively on a mutable sequence, with the
      measure 3 * |s| - i: a skip raises i by 1, a collapse lowers |s| by 2
      and i by 1. */
  method ReduceInPlace(tokens: seq<Token>) returns (r: Result<real>)
    ensures r == StackResult(tokens)
  {
    var s := tokens;
    var i: nat := 0;
    assert s[i..] == tokens && s[..i] == [];
    while |s| > 1 && i < |s|
      invariant i <= |s|
      invariant StackResult(tokens) == match RunStack(s[i..], s[..i])
                                       case Success(stack) => Final(stack)
                                       case Failure(e) => Failure(e)
      decreases 3 * |s| - i
    {
      assert s[i..][0] == s[i] && s[i..][1..] == s[i + 1..];
      if !IsOperatorToken(s[i]) {
        assert s[..i] + [s[i]] == s[..i + 1];
        i := i + 1;
      } else if i >= 2 && s[i - 2].Num? && s[i - 1].Num? {
        var stack := s[..i];
        assert stack[|stack| - 2] == s[i - 2] && stack[|stack| - 1] == s[i - 1];
        var v := Execute(s[i].symbol, s[i - 2].value, s[i - 1].value);
        if v.Failure? {
          return Failure(v.error);
        }
        s := Collapse(s, i, Num(v.value));
        i := i - 1;
        assert s[..i] == stack[..|stack| - 2] + [Num(v.value)];
      } else {
        return Failure(NotANumber);
      }
    }
    if i == |s| {
      assert s[i..] == [] && s[..i] == s;
    } else {
      assert i == 0 && s[i..] == s && s[..i] == [];
      assert s[1..] == [];
    }
    r := Final(s);
  }
}
