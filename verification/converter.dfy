/** The infix-to-RPN converter of mathExprParser.js lines 60-242, with the
    number scanner `getNumber` nested in it, and `calc` (lines 267-270),
    which the scanner calls back for a signed parenthesised group. The
    three are mutually recursive; the output sequence and the depth counter
    that mathExprParser.js shares between recursion levels are threaded through
    as a `Shared` value. */
module Converter {
  import opened Tokens
  import opened OperatorTable
  import opened Lexical
  import opened Parens
  import opened Evaluator

  /** What the previous component of the current level was. The program
      also records a closing parenthesis, but returns at once after doing
      so, so that value is never read. */
  datatype Prev = Start | AfterNumber | AfterOperator | AfterOpenParen

  /** State shared by all recursion levels of one conversion. */
  datatype Shared = Shared(out: seq<Token>, depth: int)

  /** What one recursion level hands back: the shared state and the index
      (relative to its own slice) where it stopped. */
  datatype Level = Level(shared: Shared, ret: int)

  /** What the number scanner found: the entry to emit and how many
      characters it spans. */
  datatype Scanned = Scanned(token: Token, len: nat)

  predicate IsSign(c: char)
  {
    c == '+' || c == '-'
  }

  /** Pop the entries from index `k` up off the stack onto the output, top
      first (the loops of lines 147-150 and 212-219). */
  function PopAbove(stack: seq<char>, k: nat, out: seq<Token>): (r: seq<Token>)
    requires k <= |stack|
    ensures |r| == |out| + |stack| - k && r[..|out|] == out
    ensures forall j :: |out| <= j < |r| ==> r[j] == Op(stack[|stack| - 1 - (j - |out|)])
    decreases |stack|
  {
    if |stack| == k then out
    else PopAbove(stack[..|stack| - 1], k, out + [Op(stack[|stack| - 1])])
  }

  /** Pop the whole stack onto the output (lines 147-150). */
  function Flush(stack: seq<char>, out: seq<Token>): seq<Token>
  {
    PopAbove(stack, 0, out)
  }

  /** Popping emits exactly the operators above index `k`. */
  lemma {:induction false} PopSymbols(stack: seq<char>, k: nat, out: seq<Token>)
    requires k <= |stack|
    ensures OpSymbols(PopAbove(stack, k, out)[|out|..]) == multiset(stack[k..])
    decreases |stack|
  {
    var r := PopAbove(stack, k, out);
    if |stack| == k {
      assert r[|out|..] == [] && stack[k..] == [];
    } else {
      var top := stack[|stack| - 1];
      var below := stack[..|stack| - 1];
      var out' := out + [Op(top)];
      PopSymbols(below, k, out');
      PopStep(stack, k, out);
      assert r == PopAbove(below, k, out') && |out'| == |out| + 1;
      assert stack[k..] == below[k..] + [top];
    }
  }

  /** Flushing emits exactly the operators of the stack. */
  lemma {:induction false} FlushSymbols(stack: seq<char>, out: seq<Token>)
    ensures OpSymbols(Flush(stack, out)[|out|..]) == multiset(stack)
  {
    PopSymbols(stack, 0, out);
    assert stack[0..] == stack;
  }

  /** Popping above a lower index emits the top first. */
  lemma {:induction false} PopStep(stack: seq<char>, k: nat, out: seq<Token>)
    requires k < |stack|
    ensures var r := PopAbove(stack, k, out);
      OpSymbols(r[|out|..]) == multiset{stack[|stack| - 1]} + OpSymbols(r[|out| + 1..])
  {
    var r := PopAbove(stack, k, out);
    assert r[|out|] == Op(stack[|stack| - 1]);
    assert r[|out|..] == [r[|out|]] + r[|out| + 1..];
    OpSymbolsAppend([r[|out|]], r[|out| + 1..]);
    assert [r[|out|]][..0] == [];
  }

  /** Operator precedences strictly decrease from the bottom of the stack
      to its top. */
  predicate DecreasingPrecedence(stack: seq<char>)
  {
    forall a, b :: 0 <= a < b < |stack| ==> Precedence(stack[a]) > Precedence(stack[b])
  }

  datatype Pushed = Pushed(stack: seq<char>, out: seq<Token>)

  /** A binary operator meets the stack (lines 211-222): entries of
      precedence rank <= its own are popped to the output, top first, until
      one of higher rank is on top; then it is pushed. The first
      |r.stack| - 1 entries are the ones kept. */
  function PushOperator(stack: seq<char>, op: char, out: seq<Token>): (r: Pushed)
    ensures PushSpec(stack, op, out, r)
    decreases |stack|
  {
    if |stack| > 0 && Precedence(stack[|stack| - 1]) <= Precedence(op) then
      var r := PushOperator(stack[..|stack| - 1], op, out + [Op(stack[|stack| - 1])]);
      PopFacts(stack, op, out, r);
      r
    else
      assert stack[..|stack|] == stack;
      Pushed(stack + [op], out)
  }

  /** The contract of `PushOperator`: the first |r.stack| - 1 entries are
      kept, and the new operator goes on top of them; the rest are flushed
      to the output, and they are exactly the top entries of rank <= the
      new operator's. */
  predicate PushSpec(stack: seq<char>, op: char, out: seq<Token>, r: Pushed)
  {
    && 1 <= |r.stack| <= |stack| + 1
    && r.stack == stack[..|r.stack| - 1] + [op]
    && r.out == PopAbove(stack, |r.stack| - 1, out)
    && (forall k :: |r.stack| - 1 <= k < |stack| ==> Precedence(stack[k]) <= Precedence(op))
    && (|r.stack| > 1 ==> Precedence(stack[|r.stack| - 2]) > Precedence(op))
  }

  /** Popping the top and pushing against the rest is pushing against the
      whole stack. */
  lemma {:induction false} PopFacts(stack: seq<char>, op: char, out: seq<Token>, r: Pushed)
    requires |stack| > 0 && Precedence(stack[|stack| - 1]) <= Precedence(op)
    requires PushSpec(stack[..|stack| - 1], op, out + [Op(stack[|stack| - 1])], r)
    ensures PushSpec(stack, op, out, r)
  {
    var below := stack[..|stack| - 1];
    var kept := |r.stack| - 1;
    assert below[..kept] == stack[..kept];
    assert forall k :: kept <= k < |below| ==> below[k] == stack[k];
  }

  /** After a push the stack is still ordered by precedence, and the
      entries popped are exactly those of rank <= the incoming operator's. */
  lemma {:induction false} PushOperatorKeepsOrder(stack: seq<char>, op: char, out: seq<Token>)
    requires DecreasingPrecedence(stack)
    ensures DecreasingPrecedence(PushOperator(stack, op, out).stack)
    ensures forall k :: 0 <= k < |stack| ==>
      (k < |PushOperator(stack, op, out).stack| - 1 <==> Precedence(stack[k]) > Precedence(op))
  {
    var r := PushOperator(stack, op, out);
    var kept := |r.stack| - 1;
    KeptOutrankOperator(stack, op, kept);
    forall a, b | 0 <= a < b < |r.stack|
      ensures Precedence(r.stack[a]) > Precedence(r.stack[b])
    {
      assert r.stack[a] == stack[a];
      if b < kept {
        assert r.stack[b] == stack[b];
      }
    }
  }

  lemma {:induction false} KeptOutrankOperator(stack: seq<char>, op: char, kept: nat)
    requires DecreasingPrecedence(stack) && kept <= |stack|
    requires kept > 0 ==> Precedence(stack[kept - 1]) > Precedence(op)
    ensures forall k :: 0 <= k < kept ==> Precedence(stack[k]) > Precedence(op)
  {
    forall k | 0 <= k < kept
      ensures Precedence(stack[k]) > Precedence(op)
    {
      if k < kept - 1 {
        assert Precedence(stack[k]) > Precedence(stack[kept - 1]);
      }
    }
  }

  /** Pushing loses no operator: the old stack and the incoming operator
      are the new stack plus what was popped to the output. */
  lemma {:induction false} PushOperatorSymbols(stack: seq<char>, op: char, out: seq<Token>)
    ensures multiset(stack) + multiset{op} ==
      multiset(PushOperator(stack, op, out).stack) + OpSymbols(PushOperator(stack, op, out).out[|out|..])
  {
    var r := PushOperator(stack, op, out);
    var kept := |r.stack| - 1;
    PopSymbols(stack, kept, out);
    SplitSymbols(stack, op, kept, r.stack, OpSymbols(r.out[|out|..]));
  }

  lemma {:induction false} SplitSymbols(stack: seq<char>, op: char, kept: nat, stack': seq<char>, popped: multiset<char>)
    requires kept <= |stack| && stack' == stack[..kept] + [op] && popped == multiset(stack[kept..])
    ensures multiset(stack) + multiset{op} == multiset(stack') + popped
  {
    assert stack == stack[..kept] + stack[kept..];
  }

  /** Precedence falls by at least one per entry up the stack. */
  lemma {:induction false} PrecedenceFalls(stack: seq<char>, j: nat)
    requires DecreasingPrecedence(stack) && j < |stack|
    ensures Precedence(stack[0]) >= Precedence(stack[j]) + j
  {
    if j > 0 {
      PrecedenceFalls(stack, j - 1);
    }
  }

  /** A precedence-ordered stack of operators holds at most one
      multiplicative operator above at most one additive one. */
  lemma {:induction false} StackHoldsAtMostTwo(stack: seq<char>)
    requires DecreasingPrecedence(stack)
    requires forall k :: 0 <= k < |stack| ==> IsValidOperator(stack[k])
    ensures |stack| <= 2
  {
    if |stack| > 0 {
      PrecedenceFalls(stack, |stack| - 1);
    }
  }

  /** `getNumber` (lines 62-128), called on the rest of the text from the
      current position. An optional sign, then either a parenthesised group,
      evaluated by `Calc`, or the longest decimal literal. A group whose
      value is NaN gives a NaN entry. The converter never calls it on a
      text that starts with '('; the rank in the measure covers that case
      nonetheless. */
  function ScanNumber(str: string): (r: Result<Scanned>)
    ensures r.Success? ==> 1 <= r.value.len <= |str|
    decreases |str|, if |str| > 0 && str[0] == '(' then 7 else 1
  {
    var body := AfterSign(str);
    if |body| > 0 && body[0] == '(' then ScanGroup(str) else ScanLiteral(str)
  }

  /** The text starts with a minus sign. */
  predicate Negative(str: string)
  {
    |str| > 0 && str[0] == '-'
  }

  /** A value times the sign factor -1 or 1 (lines 69-73). */
  function Signed(negative: bool, v: real): real
  {
    if negative then -v else v
  }

  /** Number of characters taken by the optional leading sign. */
  function SignLength(str: string): nat
  {
    if |str| > 0 && IsSign(str[0]) then 1 else 0
  }

  /** The text after an optional leading sign (lines 68-74). */
  function AfterSign(str: string): (r: string)
    ensures |r| == |str| - SignLength(str) && r == str[SignLength(str)..]
  {
    if |str| > 0 && IsSign(str[0]) then str[1..] else str
  }

  /** The sub-expression path (lines 81-107): collect the group, evaluate
      it with `Calc`, and apply the sign. */
  function ScanGroup(str: string): (r: Result<Scanned>)
    requires var body := AfterSign(str); |body| > 0 && body[0] == '('
    ensures r.Success? ==> 1 <= r.value.len <= |str|
    decreases |str|, if |str| > 0 && str[0] == '(' then 6 else 0
  {
    var group := CollectGroup(AfterSign(str));
    var value := Calc(group);
    if value.Failure? && value.error != NotANumber then Failure(value.error)
    else
      var token := if value.Success? then Num(Signed(Negative(str), value.value)) else NaN;
      Success(Scanned(token, |group| + SignLength(str)))
  }

  /** The literal path (lines 110-127): the longest decimal literal after
      the sign; none at all makes the number invalid. */
  function ScanLiteral(str: string): (r: Result<Scanned>)
    requires var body := AfterSign(str); !(|body| > 0 && body[0] == '(')
    ensures r.Success? ==> 1 <= r.value.len <= |str|
    ensures r.Failure? ==> r == Failure(InvalidExpression)
    ensures var body := AfterSign(str); r.Success? <==> |body| > 0 && IsDigit(body[0])
    ensures r.Success? ==> r.value.token.Num?
  {
    var body := AfterSign(str);
    var n := LiteralLength(body);
    if n == 0 then Failure(InvalidExpression)
    else Success(Scanned(Num(Signed(Negative(str), LiteralValue(body[..n]))), n + SignLength(str)))
  }

  /** The scanner never reports NaN as an error, and the text it consumed
      has balanced parentheses: a literal has none, and a group it accepts
      is one that `Calc` evaluated, which only happens for balanced text. */
  lemma {:induction false} ScanHolds(str: string)
    ensures var r := ScanNumber(str);
      && (r.Success? ==> Walk(str[..r.value.len], 0) == Some(0))
      && (r.Failure? ==> r.error != NotANumber)
    decreases |str|, if |str| > 0 && str[0] == '(' then 14 else 2
  {
    var body := AfterSign(str);
    if |body| > 0 && body[0] == '(' {
      GroupScanHolds(str);
    } else {
      var r := ScanLiteral(str);
      if r.Success? {
        var n := LiteralLength(body);
        LiteralBalanced(str, SignLength(str), body[..n]);
      }
    }
  }

  lemma {:induction false} GroupScanHolds(str: string)
    requires var body := AfterSign(str); |body| > 0 && body[0] == '('
    ensures var r := ScanGroup(str);
      && (r.Success? ==> Walk(str[..r.value.len], 0) == Some(0))
      && (r.Failure? ==> r.error != NotANumber)
    decreases |str|, if |str| > 0 && str[0] == '(' then 12 else 0
  {
    var group := CollectGroup(AfterSign(str));
    CalcHolds(group);
    var value := Calc(group);
    if !(value.Failure? && value.error != NotANumber) {
      WalkStrip(group, 0);
      SignedGroupBalanced(str, SignLength(str), group);
    }
  }

  lemma {:induction false} SignedGroupBalanced(str: string, signLen: nat, group: string)
    requires signLen == SignLength(str)
    requires signLen + |group| <= |str| && group == str[signLen..][..|group|]
    requires Walk(group, 0) == Some(0)
    ensures Walk(str[..|group| + signLen], 0) == Some(0)
  {
    assert str[..|group| + signLen] == str[..signLen] + group;
    SignHasNoParens(str, signLen);
    WalkAppend(str[..signLen], group, 0);
  }

  /** The optional sign leaves the depth alone. */
  lemma {:induction false} SignHasNoParens(str: string, signLen: nat)
    requires signLen == SignLength(str)
    ensures Walk(str[..signLen], 0) == Some(0)
  {
    if signLen == 1 {
      assert str[..1] == [str[0]];
    } else {
      assert str[..0] == [];
    }
    WalkNoParens(str[..signLen], 0);
  }

  lemma {:induction false} LiteralBalanced(str: string, signLen: nat, lit: string)
    requires signLen == SignLength(str) && IsDecimal(lit)
    requires signLen + |lit| <= |str| && lit == str[signLen..][..|lit|]
    ensures Walk(str[..|lit| + signLen], 0) == Some(0)
  {
    assert str[..|lit| + signLen] == str[..signLen] + lit;
    LiteralHasNoParens(lit);
    SignHasNoParens(str, signLen);
    WalkAppend(str[..signLen], lit, 0);
    WalkNoParens(lit, 0);
  }

  lemma {:induction false} LiteralHasNoParens(t: string)
    requires IsDecimal(t)
    ensures forall k :: 0 <= k < |t| ==> t[k] != '(' && t[k] != ')'
  {
    DecimalChars(t);
  }

  /** What a level of the converter guarantees when it returns, started at
      index `i` of its slice `e` with stack `stack` and shared state `sh`:
      the index it returned is in range; the output was only appended to;
      every operator on the stack reached the output; and the parenthesis
      facts of `LevelWalk`. */
  predicate LevelSpec(e: string, i: nat, stack: seq<char>, sh: Shared, l: Level)
    requires i <= |e|
  {
    && i - 1 <= l.ret < |e|
    && sh.out <= l.shared.out
    && multiset(stack) <= OpSymbols(l.shared.out[|sh.out|..])
    && LevelWalk(e, i, sh, l)
  }

  /** A level stopped either at the ')' that closed it, and the depth
      counter went down by one, or at the end of the slice, and the counter
      did not go down; the text it consumed is balanced apart from the
      levels it left open. */
  predicate LevelWalk(e: string, i: nat, sh: Shared, l: Level)
    requires i <= |e|
  {
    && (l.shared.depth < sh.depth ==>
          && l.shared.depth == sh.depth - 1
          && i <= l.ret < |e| && e[l.ret] == ')'
          && Walk(e[i..l.ret], 0) == Some(0))
    && (l.shared.depth >= sh.depth ==>
          && l.ret == |e| - 1
          && Walk(e[i..], 0) == Some(l.shared.depth - sh.depth))
  }

  /** One level of `infixToRPNImpl` (lines 144-235), from index `i` of its
      slice `e`, with the level's operator stack and previous-component
      marker. The index it returns is at least the one before `i`, so the
      level that resumes after it makes progress. */
  function ConvertLevel(e: string, i: nat, stack: seq<char>, prev: Prev, sh: Shared): (r: Result<Level>)
    requires i <= |e|
    ensures r.Success? ==> i - 1 <= r.value.ret < |e|
    decreases |e| - i, 3
  {
    if i == |e| then
      Success(Level(Shared(Flush(stack, sh.out), sh.depth), |e| - 1))
    else if e[i] == '(' then
      ConvertGroup(e, i, stack, sh)
    else if e[i] == ')' then
      Success(Level(Shared(Flush(stack, sh.out), sh.depth - 1), i))
    else if prev == AfterOperator || !IsValidOperator(e[i]) || prev == Start then
      ConvertOperand(e, i, stack, sh)
    else
      ConvertOperator(e, i, stack, sh)
  }

  /** An opening parenthesis (lines 166-183): the depth goes up, a new
      level converts the rest of the text into the same output, and this
      level resumes just after the index that level returned. The source
      hands the new level the slice after the '(' and adds the index it
      returns, plus one, to its own; here the new level runs on the same
      text from index `i + 1` and returns an index of that text, which is
      the same position. */
  function ConvertGroup(e: string, i: nat, stack: seq<char>, sh: Shared): (r: Result<Level>)
    requires i < |e| && e[i] == '('
    ensures r.Success? ==> i <= r.value.ret < |e|
    decreases |e| - i, 2
  {
    match ConvertLevel(e, i + 1, [], Start, Shared(sh.out, sh.depth + 1))
    case Failure(err) => Failure(err)
    case Success(inner) => ConvertLevel(e, inner.ret + 1, stack, AfterOpenParen, inner.shared)
  }

  /** A number where one is required is scanned and appended to the output
      (lines 153-160, 197-208, 226-230); the level goes on after it. */
  function ConvertOperand(e: string, i: nat, stack: seq<char>, sh: Shared): (r: Result<Level>)
    requires i < |e| && e[i] != '('
    ensures r.Success? ==> i <= r.value.ret < |e|
    decreases |e| - i, 2
  {
    match ScanNumber(e[i..])
    case Failure(err) => Failure(err)
    case Success(n) => ConvertLevel(e, i + n.len, stack, AfterNumber, Shared(sh.out + [n.token], sh.depth))
  }

  /** A binary operator (lines 209-224): settle it against the stack, then
      go on with the next character. */
  function ConvertOperator(e: string, i: nat, stack: seq<char>, sh: Shared): (r: Result<Level>)
    requires i < |e| && e[i] != '(' && e[i] != ')'
    ensures r.Success? ==> i <= r.value.ret < |e|
    decreases |e| - i, 2
  {
    var p := PushOperator(stack, e[i], sh.out);
    ConvertLevel(e, i + 1, p.stack, AfterOperator, Shared(p.out, sh.depth))
  }

  /** `infixToRPN` (lines 60-242): strip the spaces, convert from an empty
      state, and reject a non-zero final depth. */
  function InfixToRpn(s: string): Result<seq<Token>>
    decreases |s|, 4
  {
    match ConvertLevel(Strip(s), 0, [], Start, Shared([], 0))
    case Failure(err) => Failure(err)
    case Success(level) =>
      if level.shared.depth != 0 then Failure(InvalidExpression) else Success(level.shared.out)
  }

  /** `calc` (lines 267-270): convert, then evaluate. */
  function Calc(s: string): Result<real>
    decreases |s|, 5
  {
    match InfixToRpn(s)
    case Failure(err) => Failure(err)
    case Success(rpn) => RpnToResult(rpn)
  }

  /** What a level's outcome promises: on success the facts of `LevelSpec`;
      a failure is never the NaN marker. */
  predicate LevelHolds(e: string, i: nat, stack: seq<char>, sh: Shared, r: Result<Level>)
    requires i <= |e|
  {
    && (r.Success? ==> LevelSpec(e, i, stack, sh, r.value))
    && (r.Failure? ==> r.error != NotANumber)
  }

  /** Every level of the converter keeps `LevelSpec`: its output only
      grows, every operator on its stack reaches the output, and its
      parenthesis bookkeeping matches the text it consumed. Every level
      starts from an empty stack, and the recursive calls below require an
      ordered stack: so every stack the converter builds has ranks that
      strictly fall from bottom to top. */
  lemma {:induction false} ConvertLevelHolds(e: string, i: nat, stack: seq<char>, prev: Prev, sh: Shared)
    requires i <= |e|
    requires DecreasingPrecedence(stack)
    ensures LevelHolds(e, i, stack, sh, ConvertLevel(e, i, stack, prev, sh))
    decreases |e| - i, 6
  {
    if i == |e| {
      assert e[i..] == [];
      FlushSymbols(stack, sh.out);
    } else if e[i] == '(' {
      ConvertGroupHolds(e, i, stack, sh);
    } else if e[i] == ')' {
      assert e[i..i] == [];
      FlushSymbols(stack, sh.out);
    } else if prev == AfterOperator || !IsValidOperator(e[i]) || prev == Start {
      ConvertOperandHolds(e, i, stack, sh);
    } else {
      ConvertOperatorHolds(e, i, stack, sh);
    }
  }

  lemma {:induction false} ConvertGroupHolds(e: string, i: nat, stack: seq<char>, sh: Shared)
    requires i < |e| && e[i] == '('
    requires DecreasingPrecedence(stack)
    ensures LevelHolds(e, i, stack, sh, ConvertGroup(e, i, stack, sh))
    decreases |e| - i, 4
  {
    var sh1 := Shared(sh.out, sh.depth + 1);
    ConvertLevelHolds(e, i + 1, [], Start, sh1);
    match ConvertLevel(e, i + 1, [], Start, sh1)
    case Failure(_) =>
    case Success(inner) =>
      ConvertLevelHolds(e, inner.ret + 1, stack, AfterOpenParen, inner.shared);
      var res := ConvertLevel(e, inner.ret + 1, stack, AfterOpenParen, inner.shared);
      assert ConvertGroup(e, i, stack, sh) == res;
      if res.Success? {
        GroupFacts(e, i, stack, sh, inner, res.value);
      }
  }

  lemma {:induction false} ConvertOperandHolds(e: string, i: nat, stack: seq<char>, sh: Shared)
    requires i < |e| && e[i] != '('
    requires DecreasingPrecedence(stack)
    ensures LevelHolds(e, i, stack, sh, ConvertOperand(e, i, stack, sh))
    decreases |e| - i, 4
  {
    ScanAt(e, i);
    match ScanNumber(e[i..])
    case Failure(_) =>
    case Success(n) =>
      OperandContinues(e, i, n, stack, sh);
  }

  /** The level that resumes after a scanned number keeps `LevelSpec` for
      the level that scanned it. */
  lemma {:induction false} OperandContinues(e: string, i: nat, n: Scanned, stack: seq<char>, sh: Shared)
    requires i < |e| && 1 <= n.len <= |e| - i
    requires Walk(e[i..i + n.len], 0) == Some(0)
    requires DecreasingPrecedence(stack)
    ensures LevelHolds(e, i, stack, sh,
      ConvertLevel(e, i + n.len, stack, AfterNumber, Shared(sh.out + [n.token], sh.depth)))
    decreases |e| - i, 3
  {
    var sh1 := Shared(sh.out + [n.token], sh.depth);
    ConvertLevelHolds(e, i + n.len, stack, AfterNumber, sh1);
    var res := ConvertLevel(e, i + n.len, stack, AfterNumber, sh1);
    if res.Success? {
      OperandFacts(e, i, n, stack, sh, res.value);
    }
  }

  /** `ScanHolds` for the scanner called at index `i` of the text. */
  lemma {:induction false} ScanAt(e: string, i: nat)
    requires i < |e| && e[i] != '('
    ensures var r := ScanNumber(e[i..]);
      && (r.Success? ==> i + r.value.len <= |e| && Walk(e[i..i + r.value.len], 0) == Some(0))
      && (r.Failure? ==> r.error != NotANumber)
    decreases |e| - i, 3
  {
    assert e[i..][0] == e[i];
    ScanHolds(e[i..]);
    var r := ScanNumber(e[i..]);
    if r.Success? {
      assert e[i..][..r.value.len] == e[i..i + r.value.len];
    }
  }

  lemma {:induction false} ConvertOperatorHolds(e: string, i: nat, stack: seq<char>, sh: Shared)
    requires i < |e| && e[i] != '(' && e[i] != ')'
    requires DecreasingPrecedence(stack)
    ensures LevelHolds(e, i, stack, sh, ConvertOperator(e, i, stack, sh))
    decreases |e| - i, 4
  {
    var p := PushOperator(stack, e[i], sh.out);
    PushOperatorKeepsOrder(stack, e[i], sh.out);
    ConvertLevelHolds(e, i + 1, p.stack, AfterOperator, Shared(p.out, sh.depth));
    var res := ConvertLevel(e, i + 1, p.stack, AfterOperator, Shared(p.out, sh.depth));
    if res.Success? {
      PushOperatorSymbols(stack, e[i], sh.out);
      OperatorFacts(e, i, stack, p, sh, res.value);
    }
  }

  /** The converter succeeds only on text whose parentheses balance once
      the spaces are stripped, and never fails with the NaN marker. */
  lemma {:induction false} InfixToRpnHolds(s: string)
    ensures var r := InfixToRpn(s);
      && (r.Success? ==> Balanced(Strip(s)))
      && (r.Failure? ==> r.error != NotANumber)
    decreases |s|, 8
  {
    var e := Strip(s);
    ConvertLevelHolds(e, 0, [], Start, Shared([], 0));
    assert e[0..] == e;
  }

  /** A result, or the NaN of a malformed postfix sequence, is only ever
      produced for text whose parentheses balance. */
  lemma {:induction false} CalcHolds(s: string)
    ensures var r := Calc(s); r.Success? || r.error == NotANumber ==> Balanced(Strip(s))
    decreases |s|, 10
  {
    InfixToRpnHolds(s);
  }

  /** The converse of `InfixToRpnHolds`: when the top level succeeds, the
      depth check of line 239 accepts exactly the texts whose parentheses
      balance once the spaces are stripped. */
  lemma InfixToRpnSucceeds(s: string)
    ensures InfixToRpn(s).Success?
        <==> ConvertLevel(Strip(s), 0, [], Start, Shared([], 0)).Success? && Balanced(Strip(s))
  {
    var e := Strip(s);
    InfixToRpnHolds(s);
    ConvertLevelHolds(e, 0, [], Start, Shared([], 0));
    var r := ConvertLevel(e, 0, [], Start, Shared([], 0));
    if r.Success? {
      assert e[0..] == e;
      if r.value.shared.depth < 0 {
        UnmatchedClose(e, r.value.ret);
      }
    }
  }

  /** A `)` that follows balanced text drives the walk below depth 0. */
  lemma UnmatchedClose(e: string, k: nat)
    requires k < |e| && e[k] == ')' && Walk(e[0..k], 0) == Some(0)
    ensures !Balanced(e)
  {
    assert e == e[0..k] + e[k..];
    WalkAppend(e[0..k], e[k..], 0);
    assert e[k..][0] == ')';
  }

  /** Spaces do not matter (line 237): `infixToRPN` and `calc` give the
      same result for a text and for the text with its spaces removed. */
  lemma CalcIgnoresSpaces(s: string)
    ensures InfixToRpn(s) == InfixToRpn(Strip(s))
    ensures Calc(s) == Calc(Strip(s))
  {
    StripSpec(s);
    StripSpec(Strip(s));
  }

  lemma {:induction false} GroupFacts(e: string, i: nat, stack: seq<char>, sh: Shared, inner: Level, r: Level)
    requires i < |e| && e[i] == '('
    requires LevelSpec(e, i + 1, [], Shared(sh.out, sh.depth + 1), inner)
    requires LevelSpec(e, inner.ret + 1, stack, inner.shared, r)
    ensures LevelSpec(e, i, stack, sh, r)
  {
    if inner.shared.depth >= sh.depth + 1 {
      // the inner level ran to the end of the text, and so did this one
      OpenGroupWalk(e, i, sh, inner, r);
    } else {
      ClosedGroupHead(e, i, inner.ret);
      WalkFromHead(e, i, inner.ret + 1, sh, inner.shared, r);
    }
    OutputGrows(sh.out, inner.shared.out, r.shared.out);
  }

  /** A group left open: the inner level and this one both ran to the end
      of the text, and the levels left open are the inner level's plus
      this '('. */
  lemma {:induction false} OpenGroupWalk(e: string, i: nat, sh: Shared, inner: Level, r: Level)
    requires i < |e| && e[i] == '('
    requires LevelWalk(e, i + 1, Shared(sh.out, sh.depth + 1), inner)
    requires inner.shared.depth >= sh.depth + 1 && inner.ret == |e| - 1
    requires |e| - 1 <= r.ret < |e| && LevelWalk(e, |e|, inner.shared, r)
    ensures LevelWalk(e, i, sh, r)
  {
    assert e[|e|..] == [];
    assert e[i..] == "(" + e[i + 1..];
    WalkAppend("(", e[i + 1..], 0);
    WalkShift(e[i + 1..], 0, 1);
  }

  /** A group closed by its ')' is balanced text. */
  lemma {:induction false} ClosedGroupHead(e: string, i: nat, ret: nat)
    requires i < ret < |e| && e[i] == '(' && e[ret] == ')'
    requires Walk(e[i + 1..ret], 0) == Some(0)
    ensures Walk(e[i..ret + 1], 0) == Some(0)
  {
    assert e[i..ret + 1] == "(" + e[i + 1..ret] + ")";
    WalkAppend("(", e[i + 1..ret], 0);
    WalkShift(e[i + 1..ret], 0, 1);
    WalkAppend("(" + e[i + 1..ret], ")", 0);
  }

  /** A balanced head `e[i..j]` does not change what the rest of the
      level reports about parentheses. */
  lemma {:induction false} WalkFromHead(e: string, i: nat, j: nat, sh: Shared, sh2: Shared, l: Level)
    requires i <= j <= |e| && Walk(e[i..j], 0) == Some(0)
    requires sh2.depth == sh.depth
    requires j - 1 <= l.ret < |e| && LevelWalk(e, j, sh2, l)
    ensures LevelWalk(e, i, sh, l)
  {
    if l.shared.depth < sh.depth {
      BalancedHead(e, i, j, l.ret);
    } else {
      BalancedHead(e, i, j, |e|);
      assert e[i..|e|] == e[i..] && e[j..|e|] == e[j..];
    }
  }

  lemma {:induction false} BalancedHead(e: string, i: nat, j: nat, k: nat)
    requires i <= j <= k <= |e| && Walk(e[i..j], 0) == Some(0)
    ensures Walk(e[i..k], 0) == Walk(e[j..k], 0)
  {
    assert e[i..k] == e[i..j] + e[j..k];
    WalkAppend(e[i..j], e[j..k], 0);
  }

  /** Appending in two steps: the operators of the whole appended part are
      those of each step. */
  lemma {:induction false} OutputGrows(a: seq<Token>, b: seq<Token>, c: seq<Token>)
    requires a <= b && b <= c
    ensures a <= c
    ensures OpSymbols(c[|a|..]) == OpSymbols(b[|a|..]) + OpSymbols(c[|b|..])
  {
    assert c[|a|..] == b[|a|..] + c[|b|..];
    OpSymbolsAppend(b[|a|..], c[|b|..]);
  }

  lemma {:induction false} OperandFacts(e: string, i: nat, n: Scanned, stack: seq<char>, sh: Shared, r: Level)
    requires i < |e| && 1 <= n.len <= |e| - i
    requires Walk(e[i..i + n.len], 0) == Some(0)
    requires LevelSpec(e, i + n.len, stack, Shared(sh.out + [n.token], sh.depth), r)
    ensures LevelSpec(e, i, stack, sh, r)
  {
    WalkFromHead(e, i, i + n.len, sh, Shared(sh.out + [n.token], sh.depth), r);
    OutputGrows(sh.out, sh.out + [n.token], r.shared.out);
  }

  lemma {:induction false} OperatorFacts(e: string, i: nat, stack: seq<char>, p: Pushed, sh: Shared, r: Level)
    requires i < |e| && e[i] != '(' && e[i] != ')'
    requires sh.out <= p.out
    requires multiset(stack) + multiset{e[i]} == multiset(p.stack) + OpSymbols(p.out[|sh.out|..])
    requires LevelSpec(e, i + 1, p.stack, Shared(p.out, sh.depth), r)
    ensures LevelSpec(e, i, stack, sh, r)
  {
    PlainCharBalanced(e, i);
    WalkFromHead(e, i, i + 1, sh, Shared(p.out, sh.depth), r);
    OutputGrows(sh.out, p.out, r.shared.out);
    MultisetStep(multiset(stack), e[i], multiset(p.stack), OpSymbols(p.out[|sh.out|..]),
                 OpSymbols(r.shared.out[|p.out|..]));
  }

  lemma {:induction false} PlainCharBalanced(e: string, i: nat)
    requires i < |e| && e[i] != '(' && e[i] != ')'
    ensures Walk(e[i..i + 1], 0) == Some(0)
  {
    assert e[i..i + 1] == [e[i]];
    WalkNoParens([e[i]], 0);
  }

  lemma {:induction false} MultisetStep(before: multiset<char>, c: char, kept: multiset<char>, popped: multiset<char>, later: multiset<char>)
    requires before + multiset{c} == kept + popped && kept <= later
    ensures before <= popped + later
  {
    forall x
      ensures before[x] <= (popped + later)[x]
    {
      assert (before + multiset{c})[x] == (kept + popped)[x];
    }
  }
}
