/** Worked examples of `calc` (mathExprParser.js lines 267-270) on
    expressions that mix precedence ranks, use parentheses, or apply a sign
    to a group: `2+3*4`, `(2+3)*4`, `-(5+3)` and `((1+2)*(3+4))`. Each is
    followed through the converter one component at a time, and then
    through the evaluator. */
module Samples {
  import opened Tokens
  import opened OperatorTable
  import opened Lexical
  import opened Parens
  import opened Evaluator
  import opened Converter
  import opened ScannerFacts
  import opened Chains

  /** A one-digit literal where a number is required (lines 153-160):
      its value is appended and the level goes on after it. */
  lemma {:induction false} DigitStep(e: string, i: nat, stack: seq<char>, prev: Prev, out: seq<Token>, d: int,
                                     v: real, out': seq<Token>)
    requires i < |e| && IsDigit(e[i]) && (i + 1 == |e| || (!IsDigit(e[i + 1]) && e[i + 1] != '.'))
    requires prev == Start || prev == AfterOperator
    requires v == DigitValue(e[i]) as real && out' == out + [Num(v)]
    ensures ConvertLevel(e, i, stack, prev, Shared(out, d))
         == ConvertLevel(e, i + 1, stack, AfterNumber, Shared(out', d))
  {
    DigitScan(e, i, v);
    OperandStep(e, i, i + 1, stack, prev, out, d, v, 1);
  }

  /** The scanner reads a lone digit as its value and consumes it. */
  lemma {:induction false} DigitScan(e: string, i: nat, v: real)
    requires i < |e| && IsDigit(e[i]) && (i + 1 == |e| || (!IsDigit(e[i + 1]) && e[i + 1] != '.'))
    requires v == DigitValue(e[i]) as real
    ensures ScanNumber(e[i..]) == Success(Scanned(Num(v), 1))
  {
    var w := [e[i]];
    var rest := e[i + 1..];
    assert e[i..] == "" + LiteralText(w, None) + rest;
    if rest != [] {
      assert rest[0] == e[i + 1];
    }
    assert DigitsValue(w) == DigitValue(e[i]) by {
      assert w[..0] == [];
    }
    ScanSignedLiteral("", w, None, rest);
  }

  /** A binary operator after a number or a closed group (lines 209-224). */
  lemma {:induction false} PushStep(e: string, i: nat, stack: seq<char>, prev: Prev, sh: Shared,
                                    stack': seq<char>, out': seq<Token>)
    requires i < |e| && IsValidOperator(e[i]) && (prev == AfterNumber || prev == AfterOpenParen)
    requires PushOperator(stack, e[i], sh.out) == Pushed(stack', out')
    ensures ConvertLevel(e, i, stack, prev, sh)
         == ConvertLevel(e, i + 1, stack', AfterOperator, Shared(out', sh.depth))
  {
  }

  /** An opening parenthesis (lines 166-183): the nested level converts the
      group, and this level resumes after the index it returned. */
  lemma {:induction false} GroupStep(e: string, i: nat, stack: seq<char>, prev: Prev, sh: Shared, inner: Level)
    requires i < |e| && e[i] == '('
    requires ConvertLevel(e, i + 1, [], Start, Shared(sh.out, sh.depth + 1)) == Success(inner)
    ensures i < inner.ret + 1 <= |e|
    ensures ConvertLevel(e, i, stack, prev, sh)
         == ConvertLevel(e, inner.ret + 1, stack, AfterOpenParen, inner.shared)
  {
  }

  /** A closing parenthesis (lines 184-196): the stack is flushed, the
      depth goes down, and the level returns its index. */
  lemma {:induction false} CloseStep(e: string, i: nat, stack: seq<char>, prev: Prev, sh: Shared, out': seq<Token>)
    requires i < |e| && e[i] == ')' && out' == sh.out + StackOps(stack)
    ensures ConvertLevel(e, i, stack, prev, sh) == Success(Level(Shared(out', sh.depth - 1), i))
  {
    FlushAppends(stack, sh.out);
  }

  /** The end of the text (lines 233-234): the stack is flushed. */
  lemma {:induction false} EndStep(e: string, stack: seq<char>, prev: Prev, sh: Shared, out': seq<Token>)
    requires out' == sh.out + StackOps(stack)
    ensures ConvertLevel(e, |e|, stack, prev, sh) == Success(Level(Shared(out', sh.depth), |e| - 1))
  {
    ConvertEnd(e, stack, prev, sh);
    FlushAppends(stack, sh.out);
  }

  /** `infixToRPN` on a text without spaces whose top level ends at depth 0. */
  lemma {:induction false} RpnOf(s: string, rpn: seq<Token>, ret: int)
    requires forall k :: 0 <= k < |s| ==> s[k] != ' '
    requires ConvertLevel(s, 0, [], Start, Shared([], 0)) == Success(Level(Shared(rpn, 0), ret))
    ensures InfixToRpn(s) == Success(rpn)
  {
    StripSpec(s);
  }

  /** `2+3*4`: `*` binds before `+`, so it reaches the output first. */
  lemma {:induction false} PrecedenceRpn(e: string)
    requires e == "2+3*4"
    ensures InfixToRpn(e) == Success([Num(2.0), Num(3.0), Num(4.0), Op('*'), Op('+')])
  {
    PrecedenceLevel(e);
    RpnOf(e, [Num(2.0), Num(3.0), Num(4.0), Op('*'), Op('+')], 4);
  }

  /** The top level of `2+3*4`: the `*` is pushed above the `+`, which has
      a higher rank, and the final flush pops `*` first. */
  lemma {:induction false} PrecedenceLevel(e: string)
    requires |e| == 5 && e[0] == '2' && e[1] == '+' && e[2] == '3' && e[3] == '*' && e[4] == '4'
    ensures ConvertLevel(e, 0, [], Start, Shared([], 0))
         == Success(Level(Shared([Num(2.0), Num(3.0), Num(4.0), Op('*'), Op('+')], 0), 4))
  {
    var o1 := [Num(2.0)];
    var o2 := o1 + [Num(3.0)];
    var o3 := o2 + [Num(4.0)];
    DigitStep(e, 0, [], Start, [], 0, 2.0, o1);
    assert PushOperator([], '+', o1) == Pushed(['+'], o1);
    PushStep(e, 1, [], AfterNumber, Shared(o1, 0), ['+'], o1);
    DigitStep(e, 2, ['+'], AfterOperator, o1, 0, 3.0, o2);
    assert PushOperator(['+'], '*', o2) == Pushed(['+', '*'], o2);
    PushStep(e, 3, ['+'], AfterNumber, Shared(o2, 0), ['+', '*'], o2);
    DigitStep(e, 4, ['+', '*'], AfterOperator, o2, 0, 4.0, o3);
    assert StackOps(['+', '*']) == [Op('*'), Op('+')];
    EndStep(e, ['+', '*'], AfterNumber, Shared(o3, 0), [Num(2.0), Num(3.0), Num(4.0), Op('*'), Op('+')]);
  }

  /** An operand goes on top of the evaluator's stack (line 252). */
  lemma {:induction false} ValueStep(rest: seq<Token>, rest': seq<Token>, stack: seq<Token>, stack': seq<Token>, v: real)
    requires rest != [] && rest[0] == Num(v) && rest' == rest[1..] && stack' == stack + [Num(v)]
    ensures RunStack(rest, stack) == RunStack(rest', stack')
  {
  }

  /** An operator replaces the two numbers on top of the evaluator's stack
      with its result (lines 251-259). */
  lemma {:induction false} ApplyStep(rest: seq<Token>, rest': seq<Token>, below: seq<Token>, c: char,
                                     a: real, b: real, v: real, stack: seq<Token>, stack': seq<Token>)
    requires rest != [] && rest[0] == Op(c) && IsValidOperator(c) && rest' == rest[1..]
    requires Execute(c, a, b) == Success(v)
    requires stack == below + [Num(a), Num(b)] && stack' == below + [Num(v)]
    ensures RunStack(rest, stack) == RunStack(rest', stack')
  {
    assert stack[..|stack| - 2] == below;
  }

  /** Two numbers and an operator leave the operator's result on the
      evaluator's stack. */
  lemma {:induction false} TripleStep(rest: seq<Token>, rest': seq<Token>, below: seq<Token>, c: char,
                                      a: real, b: real, v: real, stack': seq<Token>)
    requires |rest| >= 3 && rest[0] == Num(a) && rest[1] == Num(b) && rest[2] == Op(c) && rest' == rest[3..]
    requires IsValidOperator(c) && Execute(c, a, b) == Success(v) && stack' == below + [Num(v)]
    ensures RunStack(rest, below) == RunStack(rest', stack')
  {
    ValueStep(rest, rest[1..], below, below + [Num(a)], a);
    ValueStep(rest[1..], rest[2..], below + [Num(a)], below + [Num(a), Num(b)], b);
    ApplyStep(rest[2..], rest', below, c, a, b, v, below + [Num(a), Num(b)], stack');
  }

  /** The postfix form of `2+3*4` evaluates to 14. */
  lemma {:induction false} PrecedenceValue(rpn: seq<Token>)
    requires rpn == [Num(2.0), Num(3.0), Num(4.0), Op('*'), Op('+')]
    ensures RpnToResult(rpn) == Success(14.0)
  {
    ValueStep(rpn, rpn[1..], [], [Num(2.0)], 2.0);
    ValueStep(rpn[1..], rpn[2..], [Num(2.0)], [Num(2.0), Num(3.0)], 3.0);
    ValueStep(rpn[2..], rpn[3..], [Num(2.0), Num(3.0)], [Num(2.0), Num(3.0), Num(4.0)], 4.0);
    ApplyStep(rpn[3..], rpn[4..], [Num(2.0)], '*', 3.0, 4.0, 12.0, [Num(2.0), Num(3.0), Num(4.0)], [Num(2.0), Num(12.0)]);
    ApplyStep(rpn[4..], rpn[5..], [], '+', 2.0, 12.0, 14.0, [Num(2.0), Num(12.0)], [Num(14.0)]);
    assert rpn[5..] == [];
  }

  /** `calc("2+3*4")` is 14, not 20. */
  lemma {:induction false} PrecedenceCalc(e: string)
    requires e == "2+3*4"
    ensures Calc(e) == Success(14.0)
  {
    PrecedenceRpn(e);
    PrecedenceValue([Num(2.0), Num(3.0), Num(4.0), Op('*'), Op('+')]);
  }

  /** `(2+3)*4`: the group is converted before the `*` that follows it. */
  lemma {:induction false} GroupFirstRpn(e: string)
    requires e == "(2+3)*4"
    ensures InfixToRpn(e) == Success([Num(2.0), Num(3.0), Op('+'), Num(4.0), Op('*')])
  {
    GroupFirstLevel(e);
    RpnOf(e, [Num(2.0), Num(3.0), Op('+'), Num(4.0), Op('*')], 6);
  }

  /** The top level of `(2+3)*4`: the group's sum reaches the output before
      the `*` is even pushed. */
  lemma {:induction false} GroupFirstLevel(e: string)
    requires |e| == 7 && e[0] == '(' && e[1] == '2' && e[2] == '+' && e[3] == '3' && e[4] == ')'
    requires e[5] == '*' && e[6] == '4'
    ensures ConvertLevel(e, 0, [], Start, Shared([], 0))
         == Success(Level(Shared([Num(2.0), Num(3.0), Op('+'), Num(4.0), Op('*')], 0), 6))
  {
    var o1 := [Num(2.0), Num(3.0), Op('+')];
    var o2 := o1 + [Num(4.0)];
    SumLevel(e, 0, [], 0, 2.0, 3.0);
    assert [] + o1 == o1;
    GroupStep(e, 0, [], Start, Shared([], 0), Level(Shared(o1, 0), 4));
    assert PushOperator([], '*', o1) == Pushed(['*'], o1);
    PushStep(e, 5, [], AfterOpenParen, Shared(o1, 0), ['*'], o1);
    DigitStep(e, 6, ['*'], AfterOperator, o1, 0, 4.0, o2);
    assert StackOps(['*']) == [Op('*')];
    EndStep(e, ['*'], AfterNumber, Shared(o2, 0), [Num(2.0), Num(3.0), Op('+'), Num(4.0), Op('*')]);
  }

  /** The postfix form of `(2+3)*4` evaluates to 20. */
  lemma {:induction false} GroupFirstValue(rpn: seq<Token>)
    requires rpn == [Num(2.0), Num(3.0), Op('+'), Num(4.0), Op('*')]
    ensures RpnToResult(rpn) == Success(20.0)
  {
    TripleStep(rpn, rpn[3..], [], '+', 2.0, 3.0, 5.0, [Num(5.0)]);
    ValueStep(rpn[3..], rpn[4..], [Num(5.0)], [Num(5.0), Num(4.0)], 4.0);
    ApplyStep(rpn[4..], rpn[5..], [], '*', 5.0, 4.0, 20.0, [Num(5.0), Num(4.0)], [Num(20.0)]);
    assert rpn[5..] == [];
  }

  /** `calc("(2+3)*4")` is 20: the parentheses override the ranks. */
  lemma {:induction false} GroupFirstCalc(e: string)
    requires e == "(2+3)*4"
    ensures Calc(e) == Success(20.0)
  {
    GroupFirstRpn(e);
    GroupFirstValue([Num(2.0), Num(3.0), Op('+'), Num(4.0), Op('*')]);
  }

  /** `(5+3)` on its own converts to `5 3 +`. */
  lemma {:induction false} SumRpn(e: string)
    requires e == "(5+3)"
    ensures InfixToRpn(e) == Success([Num(5.0), Num(3.0), Op('+')])
  {
    var rpn := [Num(5.0), Num(3.0), Op('+')];
    SumLevel(e, 0, [], 0, 5.0, 3.0);
    assert [] + rpn == rpn;
    GroupStep(e, 0, [], Start, Shared([], 0), Level(Shared(rpn, 0), 4));
    assert StackOps([]) == [];
    EndStep(e, [], AfterOpenParen, Shared(rpn, 0), rpn);
    RpnOf(e, rpn, 4);
  }

  /** `calc("(5+3)")` is 8. */
  lemma {:induction false} SumCalc(e: string)
    requires e == "(5+3)"
    ensures Calc(e) == Success(8.0)
  {
    var rpn := [Num(5.0), Num(3.0), Op('+')];
    SumRpn(e);
    SumValue(rpn);
  }

  /** The postfix form of `(5+3)` evaluates to 8. */
  lemma {:induction false} SumValue(rpn: seq<Token>)
    requires rpn == [Num(5.0), Num(3.0), Op('+')]
    ensures RpnToResult(rpn) == Success(8.0)
  {
    TripleStep(rpn, rpn[3..], [], '+', 5.0, 3.0, 8.0, [Num(8.0)]);
    assert rpn[3..] == [];
  }

  /** The scanner collects `(5+3)` after the sign of `-(5+3)`. */
  lemma {:induction false} SumGroupCollected(b: string)
    requires b == "(5+3)"
    ensures CollectGroup(b) == b
  {
    assert GroupEnd(b, 4, 1) == 5;
    assert GroupEnd(b, 3, 1) == 5;
    assert GroupEnd(b, 2, 1) == 5;
    assert GroupEnd(b, 1, 1) == 5;
    assert b[..5] == b;
  }

  /** `-(5+3)`: a leading sign applies to the whole group (lines 81-107). */
  lemma {:induction false} SignedGroupCalc(e: string)
    requires e == "-(5+3)"
    ensures Calc(e) == Success(-8.0)
  {
    var g := e[1..];
    assert g == "(5+3)";
    assert e == "-" + g;
    SumGroupCollected(g);
    SumCalc(g);
    ScanSignedGroup("-", g);
    assert e[0..] == e;
    OperandStep(e, 0, 6, [], Start, [], 0, -8.0, 6);
    assert StackOps([]) == [];
    EndStep(e, [], AfterNumber, Shared([] + [Num(-8.0)], 0), [Num(-8.0)]);
    RpnOf(e, [Num(-8.0)], 5);
  }

  /** A sum `(a+b)` at index `i` of `e`, converted at depth `d + 1` after
      `out`: its level appends `a`, `b` and `+` and closes at `i + 4`. */
  lemma {:induction false} SumLevel(e: string, i: nat, out: seq<Token>, d: int, a: real, b: real)
    requires i + 4 < |e| && e[i] == '(' && e[i + 2] == '+' && e[i + 4] == ')'
    requires IsDigit(e[i + 1]) && IsDigit(e[i + 3])
    requires a == DigitValue(e[i + 1]) as real && b == DigitValue(e[i + 3]) as real
    ensures ConvertLevel(e, i + 1, [], Start, Shared(out, d + 1))
         == Success(Level(Shared(out + [Num(a), Num(b), Op('+')], d), i + 4))
  {
    var o1 := out + [Num(a)];
    var o2 := o1 + [Num(b)];
    DigitStep(e, i + 1, [], Start, out, d + 1, a, o1);
    assert PushOperator([], '+', o1) == Pushed(['+'], o1);
    PushStep(e, i + 2, [], AfterNumber, Shared(o1, d + 1), ['+'], o1);
    DigitStep(e, i + 3, ['+'], AfterOperator, o1, d + 1, b, o2);
    assert StackOps(['+']) == [Op('+')];
    CloseStep(e, i + 4, ['+'], AfterNumber, Shared(o2, d + 1), out + [Num(a), Num(b), Op('+')]);
  }

  /** The level of `(1+2)*(3+4)` inside the outer parentheses of
      `((1+2)*(3+4))`, at depth 1. */
  lemma {:induction false} ProductLevel(e: string)
    requires e == "((1+2)*(3+4))"
    ensures ConvertLevel(e, 1, [], Start, Shared([], 1))
         == Success(Level(Shared([Num(1.0), Num(2.0), Op('+'), Num(3.0), Num(4.0), Op('+'), Op('*')], 0), 12))
  {
    var o1 := [Num(1.0), Num(2.0), Op('+')];
    var o2 := o1 + [Num(3.0), Num(4.0), Op('+')];
    SumLevel(e, 1, [], 1, 1.0, 2.0);
    assert [] + o1 == o1;
    GroupStep(e, 1, [], Start, Shared([], 1), Level(Shared(o1, 1), 5));
    assert PushOperator([], '*', o1) == Pushed(['*'], o1);
    PushStep(e, 6, [], AfterOpenParen, Shared(o1, 1), ['*'], o1);
    SumLevel(e, 7, o1, 1, 3.0, 4.0);
    GroupStep(e, 7, ['*'], AfterOperator, Shared(o1, 1), Level(Shared(o2, 1), 11));
    assert StackOps(['*']) == [Op('*')];
    assert o2 + [Op('*')] == [Num(1.0), Num(2.0), Op('+'), Num(3.0), Num(4.0), Op('+'), Op('*')];
    CloseStep(e, 12, ['*'], AfterOpenParen, Shared(o2, 1), o2 + [Op('*')]);
  }

  /** `((1+2)*(3+4))`: both inner sums are output before the product. */
  lemma {:induction false} NestedRpn(e: string)
    requires e == "((1+2)*(3+4))"
    ensures InfixToRpn(e) == Success([Num(1.0), Num(2.0), Op('+'), Num(3.0), Num(4.0), Op('+'), Op('*')])
  {
    var rpn := [Num(1.0), Num(2.0), Op('+'), Num(3.0), Num(4.0), Op('+'), Op('*')];
    ProductLevel(e);
    GroupStep(e, 0, [], Start, Shared([], 0), Level(Shared(rpn, 0), 12));
    assert StackOps([]) == [];
    EndStep(e, [], AfterOpenParen, Shared(rpn, 0), rpn);
    RpnOf(e, rpn, 12);
  }

  /** The postfix form of `((1+2)*(3+4))` evaluates to 21. */
  lemma {:induction false} NestedValue(rpn: seq<Token>)
    requires rpn == [Num(1.0), Num(2.0), Op('+'), Num(3.0), Num(4.0), Op('+'), Op('*')]
    ensures RpnToResult(rpn) == Success(21.0)
  {
    TripleStep(rpn, rpn[3..], [], '+', 1.0, 2.0, 3.0, [Num(3.0)]);
    TripleStep(rpn[3..], rpn[6..], [Num(3.0)], '+', 3.0, 4.0, 7.0, [Num(3.0), Num(7.0)]);
    ApplyStep(rpn[6..], rpn[7..], [], '*', 3.0, 7.0, 21.0, [Num(3.0), Num(7.0)], [Num(21.0)]);
    assert rpn[7..] == [];
  }

  /** `calc("((1+2)*(3+4))")` is 21. */
  lemma {:induction false} NestedCalc(e: string)
    requires e == "((1+2)*(3+4))"
    ensures Calc(e) == Success(21.0)
  {
    NestedRpn(e);
    NestedValue([Num(1.0), Num(2.0), Op('+'), Num(3.0), Num(4.0), Op('+'), Op('*')]);
  }
}
