/** Whole-expression behaviour of `calc` on operator chains: a signed
    literal followed by links of a binary operator and a (possibly signed)
    literal, all operators of the same precedence. Such a chain is
    evaluated from left to right: `8-3-2` is `(8-3)-2` and `8/4/2` is
    `(8/4)/2`, because mathExprParser.js lines 211-222 pop an operator of
    equal rank before pushing the next one. */
module Chains {
  import opened Tokens
  import opened OperatorTable
  import opened Lexical
  import opened Parens
  import opened Evaluator
  import opened Converter
  import opened ScannerFacts

  /** A literal with its optional sign, given by its parts. */
  datatype Literal = Literal(sign: string, whole: string, frac: Option<string>)

  /** A binary operator followed by a literal. */
  datatype Link = Link(op: char, arg: Literal)

  /** A leading literal and the links after it. */
  datatype Chain = Chain(lead: Literal, links: seq<Link>)

  predicate WellFormedLiteral(a: Literal)
  {
    IsSignText(a.sign) && LiteralParts(a.whole, a.frac)
  }

  predicate WellFormedLink(l: Link)
  {
    IsValidOperator(l.op) && WellFormedLiteral(l.arg)
  }

  /** All links well formed and all operators of precedence rank `p`. */
  predicate LinksAt(links: seq<Link>, p: nat)
  {
    forall k :: 0 <= k < |links| ==> WellFormedLink(links[k]) && Precedence(links[k].op) == p
  }

  predicate WellFormedChain(c: Chain, p: nat)
  {
    WellFormedLiteral(c.lead) && LinksAt(c.links, p)
  }

  /** The text of a literal, sign included. */
  function SignedText(a: Literal): string
  {
    a.sign + LiteralText(a.whole, a.frac)
  }

  function LinksText(links: seq<Link>): string
  {
    if links == [] then [] else [links[0].op] + SignedText(links[0].arg) + LinksText(links[1..])
  }

  function ChainText(c: Chain): string
  {
    SignedText(c.lead) + LinksText(c.links)
  }

  /** The value of a literal, sign applied. */
  function SignedValue(a: Literal): real
    requires WellFormedLiteral(a)
  {
    Signed(a.sign == "-", PartsValue(a.whole, a.frac))
  }

  /** What the converter sees of one link: the operator, the value of the
      literal after it, and the literal's length. */
  datatype Step = Step(op: char, value: real, len: nat)

  function Steps(links: seq<Link>): (r: seq<Step>)
    requires forall l | l in links :: WellFormedLink(l)
    ensures |r| == |links|
  {
    if links == [] then []
    else
      var rest := links[1..];
      assert links[0] in links && WellFormedLink(links[0]);
      assert forall l | l in rest :: l in links;
      [Step(links[0].op, SignedValue(links[0].arg), |SignedText(links[0].arg)|)] + Steps(rest)
  }

  /** Reference semantics: apply the steps to `acc` one after another,
      from left to right. */
  function FoldLeft(acc: real, steps: seq<Step>): Result<real>
    decreases |steps|
  {
    if steps == [] then Success(acc)
    else
      match Execute(steps[0].op, acc, steps[0].value)
      case Success(v) => FoldLeft(v, steps[1..])
      case Failure(e) => Failure(e)
  }

  /** The postfix form of the steps: each value, then its operator. */
  function Pairs(steps: seq<Step>): seq<Token>
  {
    if steps == [] then [] else [Num(steps[0].value), Op(steps[0].op)] + Pairs(steps[1..])
  }

  /** The stack evaluator applies the pairs from left to right. */
  lemma {:induction false} RunPairs(acc: real, steps: seq<Step>)
    requires forall s | s in steps :: IsValidOperator(s.op)
    ensures RunStack(Pairs(steps), [Num(acc)]) ==
      match FoldLeft(acc, steps)
      case Success(v) => Success([Num(v)])
      case Failure(e) => Failure(e)
    decreases |steps|
  {
    if steps != [] {
      var s := steps[0];
      var ps := Pairs(steps);
      var rest := Pairs(steps[1..]);
      assert ps[0] == Num(s.value) && ps[1..] == [Op(s.op)] + rest;
      var stack := [Num(acc)] + [Num(s.value)];
      assert RunStack(ps, [Num(acc)]) == RunStack([Op(s.op)] + rest, stack);
      assert ([Op(s.op)] + rest)[0] == Op(s.op) && ([Op(s.op)] + rest)[1..] == rest;
      match Execute(s.op, acc, s.value)
      case Success(v) =>
        assert stack[..0] + [Num(v)] == [Num(v)];
        RunPairs(v, steps[1..]);
      case Failure(e) =>
    }
  }

  /** The operators left on a level's stack, as output entries. */
  function StackOps(stack: seq<char>): seq<Token>
  {
    Flush(stack, [])
  }

  /** At index `at`: the step's operator, of rank `p`, followed by
      something other than a parenthesis. */
  predicate OperatorAt(e: string, at: nat, s: Step, p: nat)
  {
    && at + 1 < |e| && e[at] == s.op && IsValidOperator(s.op) && Precedence(s.op) == p
    && e[at + 1] != '(' && e[at + 1] != ')'
  }

  /** After the operator at index `at`: an operand the scanner reads to the
      step's value and length. */
  predicate ScansAfter(e: string, at: nat, s: Step)
  {
    at < |e| && ScanNumber(e[at + 1..]) == Success(Scanned(Num(s.value), s.len))
  }

  /** What the converter meets in `e`: step `k` starts at index `pos[k]`,
      and the last position is the end of the text. The scanner facts are
      only brought in where a proof names them. */
  predicate ChainAt(e: string, pos: seq<nat>, steps: seq<Step>, p: nat)
  {
    && |pos| == |steps| + 1 && pos[|steps|] == |e|
    && (forall k :: 0 <= k <= |steps| ==> pos[k] <= |e|)
    && (forall k {:trigger steps[k]} :: 0 <= k < |steps| ==>
          OperatorAt(e, pos[k], steps[k], p) && pos[k] + 1 + steps[k].len == pos[k + 1])
    && (forall k {:trigger ScansAfter(e, pos[k], steps[k])} :: 0 <= k < |steps| ==>
          ScansAfter(e, pos[k], steps[k]))
  }

  /** A level that has seen a number converts the steps from `k` on to
      their pairs, after the operators that were on its stack. */
  lemma {:induction false} ConvertChain(e: string, pos: seq<nat>, steps: seq<Step>, p: nat, k: nat,
                                        stack: seq<char>, out: seq<Token>, d: int)
    requires ChainAt(e, pos, steps, p) && k <= |steps|
    requires |stack| <= 1 && (stack != [] ==> Precedence(stack[0]) == p)
    ensures ConvertLevel(e, pos[k], stack, AfterNumber, Shared(out, d))
         == Success(Level(Shared(out + StackOps(stack) + Pairs(steps[k..]), d), |e| - 1))
    decreases |steps| - k
  {
    if k == |steps| {
      ConvertEnd(e, stack, AfterNumber, Shared(out, d));
      FlushAppends(stack, out);
      assert out + StackOps(stack) + Pairs(steps[k..]) == out + StackOps(stack) by {
        assert steps[k..] == [];
      }
    } else {
      var s := steps[k];
      var out1 := out + StackOps(stack) + [Num(s.value)];
      ChainStep(e, pos, steps, p, k, stack, out, d);
      ConvertChain(e, pos, steps, p, k + 1, [s.op], out1, d);
      PairsStep(out + StackOps(stack), steps, k);
    }
  }

  /** One step of a chain: the operator settles against the stack and the
      operand after it is appended to the output. */
  lemma {:induction false} ChainStep(e: string, pos: seq<nat>, steps: seq<Step>, p: nat, k: nat,
                                     stack: seq<char>, out: seq<Token>, d: int)
    requires ChainAt(e, pos, steps, p) && k < |steps|
    requires |stack| <= 1 && (stack != [] ==> Precedence(stack[0]) == p)
    ensures pos[k] < pos[k + 1] <= |e|
    ensures ConvertLevel(e, pos[k], stack, AfterNumber, Shared(out, d))
         == ConvertLevel(e, pos[k + 1], [steps[k].op], AfterNumber,
                         Shared(out + StackOps(stack) + [Num(steps[k].value)], d))
  {
    var s := steps[k];
    var out1 := out + StackOps(stack);
    assert OperatorAt(e, pos[k], s, p) && pos[k] + 1 + s.len == pos[k + 1];
    OperatorStep(e, pos[k], stack, out, d);
    OperandAfter(e, pos, steps, p, k, [s.op], out1, d);
  }

  /** The operand of step `k` is scanned and appended to the output. */
  lemma {:induction false} OperandAfter(e: string, pos: seq<nat>, steps: seq<Step>, p: nat, k: nat,
                                        stack: seq<char>, out: seq<Token>, d: int)
    requires ChainAt(e, pos, steps, p) && k < |steps|
    ensures pos[k] + 1 < pos[k + 1] + 1 <= |e| + 1
    ensures ConvertLevel(e, pos[k] + 1, stack, AfterOperator, Shared(out, d))
         == ConvertLevel(e, pos[k + 1], stack, AfterNumber, Shared(out + [Num(steps[k].value)], d))
  {
    var s := steps[k];
    OperandAt(e, pos, steps, p, k);
    OperandStep(e, pos[k] + 1, pos[k + 1], stack, AfterOperator, out, d, s.value, s.len);
  }

  /** Step `k` of a chain, seen from just after its operator. */
  lemma {:induction false} OperandAt(e: string, pos: seq<nat>, steps: seq<Step>, p: nat, k: nat)
    requires ChainAt(e, pos, steps, p) && k < |steps|
    ensures var i := pos[k] + 1;
      && i < |e| && e[i] != '(' && e[i] != ')' && pos[k + 1] == i + steps[k].len
      && ScanNumber(e[i..]) == Success(Scanned(Num(steps[k].value), steps[k].len))
  {
    assert OperatorAt(e, pos[k], steps[k], p) && pos[k] + 1 + steps[k].len == pos[k + 1];
    assert ScansAfter(e, pos[k], steps[k]);
  }

  /** The pairs of the steps from `k` on: the first pair, then the rest. */
  lemma {:induction false} PairsStep(out: seq<Token>, steps: seq<Step>, k: nat)
    requires k < |steps|
    ensures out + [Num(steps[k].value)] + StackOps([steps[k].op]) + Pairs(steps[k + 1..])
         == out + Pairs(steps[k..])
  {
    assert StackOps([steps[k].op]) == [Op(steps[k].op)];
    assert steps[k..][0] == steps[k] && steps[k..][1..] == steps[k + 1..];
  }

  /** An operator that follows a number settles against a stack of at most
      one entry of its own rank: that entry is popped and the new operator
      takes its place. */
  lemma {:induction false} OperatorStep(e: string, i: nat, stack: seq<char>, out: seq<Token>, d: int)
    requires i < |e| && IsValidOperator(e[i])
    requires |stack| <= 1 && (stack != [] ==> Precedence(stack[0]) == Precedence(e[i]))
    ensures ConvertLevel(e, i, stack, AfterNumber, Shared(out, d))
         == ConvertLevel(e, i + 1, [e[i]], AfterOperator, Shared(out + StackOps(stack), d))
  {
    ToOperator(e, i, stack, Shared(out, d));
    OperatorThen(e, i, stack, Shared(out, d));
    ReplaceSameRank(stack, e[i], out);
  }

  lemma ToOperator(e: string, i: nat, stack: seq<char>, sh: Shared)
    requires i < |e| && IsValidOperator(e[i])
    ensures ConvertLevel(e, i, stack, AfterNumber, sh) == ConvertOperator(e, i, stack, sh)
  {
  }

  lemma OperatorThen(e: string, i: nat, stack: seq<char>, sh: Shared)
    requires i < |e| && e[i] != '(' && e[i] != ')'
    ensures var p := PushOperator(stack, e[i], sh.out);
      ConvertOperator(e, i, stack, sh) == ConvertLevel(e, i + 1, p.stack, AfterOperator, Shared(p.out, sh.depth))
  {
  }

  /** Against a stack of at most one operator of the same rank, the push
      replaces the stack by the new operator. */
  lemma {:induction false} ReplaceSameRank(stack: seq<char>, op: char, out: seq<Token>)
    requires |stack| <= 1 && (stack != [] ==> Precedence(stack[0]) == Precedence(op))
    ensures PushOperator(stack, op, out) == Pushed([op], out + StackOps(stack))
  {
    if stack == [] {
      assert stack + [op] == [op];
    } else {
      var c := stack[0];
      assert stack[..|stack| - 1] == [] && stack[|stack| - 1] == c;
      var out' := out + [Op(c)];
      assert PushOperator([], op, out') == Pushed([] + [op], out');
      assert [] + [op] == [op];
      assert Flush(stack, []) == Flush([], [] + [Op(c)]);
      assert [] + [Op(c)] == [Op(c)];
    }
  }

  /** A number where one is required is scanned and appended to the output. */
  lemma {:induction false} OperandStep(e: string, i: nat, j: nat, stack: seq<char>, prev: Prev,
                                       out: seq<Token>, d: int, v: real, len: nat)
    requires i < |e| && e[i] != '(' && e[i] != ')'
    requires prev == AfterOperator || prev == Start
    requires ScanNumber(e[i..]) == Success(Scanned(Num(v), len)) && j == i + len
    ensures j <= |e|
    ensures ConvertLevel(e, i, stack, prev, Shared(out, d))
         == ConvertLevel(e, j, stack, AfterNumber, Shared(out + [Num(v)], d))
  {
    ToOperand(e, i, stack, prev, Shared(out, d));
    OperandThen(e, i, j, stack, Shared(out, d), v, len);
  }

  lemma ToOperand(e: string, i: nat, stack: seq<char>, prev: Prev, sh: Shared)
    requires i < |e| && e[i] != '(' && e[i] != ')'
    requires prev == AfterOperator || prev == Start
    ensures ConvertLevel(e, i, stack, prev, sh) == ConvertOperand(e, i, stack, sh)
  {
  }

  lemma {:induction false} OperandThen(e: string, i: nat, j: nat, stack: seq<char>, sh: Shared, v: real, len: nat)
    requires i < |e| && e[i] != '('
    requires ScanNumber(e[i..]) == Success(Scanned(Num(v), len)) && j == i + len
    ensures j <= |e|
    ensures ConvertOperand(e, i, stack, sh)
         == ConvertLevel(e, j, stack, AfterNumber, Shared(sh.out + [Num(v)], sh.depth))
  {
  }

  /** At the end of its slice a level flushes its stack. */
  lemma ConvertEnd(e: string, stack: seq<char>, prev: Prev, sh: Shared)
    ensures ConvertLevel(e, |e|, stack, prev, sh) == Success(Level(Shared(Flush(stack, sh.out), sh.depth), |e| - 1))
  {
  }

  /** Flushing appends the stack's operators, top first. */
  lemma {:induction false} FlushAppends(stack: seq<char>, out: seq<Token>)
    ensures Flush(stack, out) == out + StackOps(stack)
  {
    var r := Flush(stack, out);
    var t := StackOps(stack);
    forall k | 0 <= k < |r|
      ensures r[k] == (out + t)[k]
    {
      if k < |out| {
        assert r[..|out|][k] == r[k];
      } else {
        assert t[k - |out|] == Op(stack[|t| - 1 - (k - |out|)]);
      }
    }
  }

  /** The text of links from index `i` on shows the converter their
      steps, at the positions `pos`. */
  lemma {:induction false} TextChainAt(e: string, i: nat, links: seq<Link>, p: nat) returns (pos: seq<nat>)
    requires i <= |e| && e[i..] == LinksText(links) && LinksAt(links, p)
    ensures |pos| > 0 && pos[0] == i && ChainAt(e, pos, Steps(links), p)
    decreases |links|
  {
    if links == [] {
      assert |e[i..]| == 0;
      pos := [i];
    } else {
      var l := links[0];
      var s := Step(l.op, SignedValue(l.arg), |SignedText(l.arg)|);
      var j := i + 1 + s.len;
      LinkRest(e, i, links, p);
      var rest := TextChainAt(e, j, links[1..], p);
      LinkCons(e, i, links, p, rest);
      assert Steps(links) == [s] + Steps(links[1..]);
      pos := [i] + rest;
    }
  }

  /** The text of the remaining links follows the first link. */
  lemma {:induction false} LinkRest(e: string, i: nat, links: seq<Link>, p: nat)
    requires links != [] && i <= |e| && e[i..] == LinksText(links) && LinksAt(links, p)
    ensures var j := i + 1 + |SignedText(links[0].arg)|;
      j <= |e| && e[j..] == LinksText(links[1..]) && LinksAt(links[1..], p)
  {
    LinkAt(e, i, links, p);
  }

  /** The first link in front of the chain of the remaining links. */
  lemma {:induction false} LinkCons(e: string, i: nat, links: seq<Link>, p: nat, pos: seq<nat>)
    requires links != [] && i <= |e| && e[i..] == LinksText(links) && LinksAt(links, p)
    requires |pos| > 0 && pos[0] == i + 1 + |SignedText(links[0].arg)| && ChainAt(e, pos, Steps(links[1..]), p)
    ensures var l := links[0];
      ChainAt(e, [i] + pos, [Step(l.op, SignedValue(l.arg), |SignedText(l.arg)|)] + Steps(links[1..]), p)
  {
    var l := links[0];
    var s := Step(l.op, SignedValue(l.arg), |SignedText(l.arg)|);
    LinkAt(e, i, links, p);
    ChainCons(e, i, s, pos, Steps(links[1..]), p);
  }

  /** A step in front of a chain that starts where the step's operand ends. */
  lemma {:induction false} ChainCons(e: string, i: nat, s: Step, pos: seq<nat>, steps: seq<Step>, p: nat)
    requires OperatorAt(e, i, s, p) && ScansAfter(e, i, s)
    requires |pos| > 0 && pos[0] == i + 1 + s.len && ChainAt(e, pos, steps, p)
    ensures ChainAt(e, [i] + pos, [s] + steps, p)
  {
    var pos' := [i] + pos;
    var steps' := [s] + steps;
    forall k | 0 <= k < |steps'|
      ensures OperatorAt(e, pos'[k], steps'[k], p) && pos'[k] + 1 + steps'[k].len == pos'[k + 1]
    {
      if k > 0 {
        assert steps'[k] == steps[k - 1];
      }
    }
    forall k | 0 <= k < |steps'|
      ensures ScansAfter(e, pos'[k], steps'[k])
    {
      if k > 0 {
        assert steps'[k] == steps[k - 1] && pos'[k] == pos[k - 1];
        assert ScansAfter(e, pos[k - 1], steps[k - 1]);
      }
    }
  }

  /** What the text of a chain of links shows the converter at index `i`:
      an operator, then a literal the scanner reads to the link's value,
      then the text of the remaining links. */
  lemma {:induction false} LinkAt(e: string, i: nat, links: seq<Link>, p: nat)
    requires links != [] && i <= |e| && e[i..] == LinksText(links) && LinksAt(links, p)
    ensures var l := links[0]; var s := Step(l.op, SignedValue(l.arg), |SignedText(l.arg)|);
      && OperatorAt(e, i, s, p) && ScansAfter(e, i, s)
      && i + 1 + s.len <= |e| && e[i + 1 + s.len..] == LinksText(links[1..]) && LinksAt(links[1..], p)
  {
    var l := links[0];
    var s := Step(l.op, SignedValue(l.arg), |SignedText(l.arg)|);
    var u := LinksText(links);
    var rest := LinksText(links[1..]);
    LinkHead(links, p);
    ShiftLink(e, i, u, s, p, rest);
  }

  /** The first link seen from the start of the links' own text. */
  lemma {:induction false} LinkHead(links: seq<Link>, p: nat)
    requires links != [] && LinksAt(links, p)
    ensures var l := links[0]; var s := Step(l.op, SignedValue(l.arg), |SignedText(l.arg)|);
      var u := LinksText(links);
      && OperatorAt(u, 0, s, p) && ScansAfter(u, 0, s)
      && 1 + s.len <= |u| && u[1 + s.len..] == LinksText(links[1..])
  {
    var l := links[0];
    var t := SignedText(l.arg);
    var rest := LinksText(links[1..]);
    assert WellFormedLink(l) && Precedence(l.op) == p;
    var u := LinksText(links);
    assert u == [l.op] + (t + rest);
    TextSplit(u, 0, l.op, t, rest);
    OperandHead(l.arg, rest);
    ScanOperand(l.arg, rest, links[1..]);
  }

  /** Facts about a link at the start of `u` hold at index `i` of any text
      whose suffix from `i` is `u`. */
  lemma {:induction false} ShiftLink(e: string, i: nat, u: string, s: Step, p: nat, rest: string)
    requires i <= |e| && e[i..] == u
    requires OperatorAt(u, 0, s, p) && ScansAfter(u, 0, s) && 1 + s.len <= |u| && u[1 + s.len..] == rest
    ensures OperatorAt(e, i, s, p) && ScansAfter(e, i, s)
    ensures i + 1 + s.len <= |e| && e[i + 1 + s.len..] == rest
  {
    assert e[i] == u[0] && e[i + 1] == u[1];
    assert e[i + 1..] == u[1..];
    assert e[i + 1 + s.len..] == u[1 + s.len..];
  }

  /** Where the text from index `i` is an operator, a literal and a rest. */
  lemma {:induction false} TextSplit(e: string, i: nat, c: char, t: string, r: string)
    requires i <= |e| && e[i..] == [c] + t + r
    ensures i < |e| && e[i] == c && e[i + 1..] == t + r
    ensures i + 1 + |t| <= |e| && e[i + 1 + |t|..] == r
    ensures |t + r| > 0 ==> e[i + 1] == (t + r)[0]
  {
    assert e[i..][0] == e[i];
    assert e[i + 1..] == e[i..][1..];
    assert e[i + 1..][|t|..] == e[i + 1 + |t|..];
    if |t + r| > 0 {
      assert e[i + 1..][0] == e[i + 1];
    }
  }

  /** A literal is scanned to its value, and nothing after it, when what
      follows is the text of links. */
  lemma {:induction false} ScanOperand(a: Literal, rest: string, more: seq<Link>)
    requires WellFormedLiteral(a) && rest == LinksText(more)
    requires forall k :: 0 <= k < |more| ==> WellFormedLink(more[k])
    ensures ScanNumber(SignedText(a) + rest) == Success(Scanned(Num(SignedValue(a)), |SignedText(a)|))
  {
    assert EndsLiteral(a.frac, rest) by {
      if more != [] {
        assert rest[0] == more[0].op && IsValidOperator(more[0].op);
      }
    }
    ScanSignedLiteral(a.sign, a.whole, a.frac, rest);
  }

  /** A literal's text starts with neither parenthesis. */
  lemma {:induction false} OperandHead(a: Literal, rest: string)
    requires WellFormedLiteral(a)
    ensures var t := SignedText(a) + rest; |t| > 0 && t[0] != '(' && t[0] != ')'
  {
    var t := SignedText(a) + rest;
    if a.sign == "" {
      assert t[0] == a.whole[0];
    } else {
      assert t[0] == a.sign[0];
    }
  }

  /** No character of a literal's text is a space. */
  lemma {:induction false} LiteralHasNoSpace(a: Literal)
    requires WellFormedLiteral(a)
    ensures ' ' !in SignedText(a)
  {
    var lit := LiteralText(a.whole, a.frac);
    assert ' ' !in a.whole;
    if a.frac.Some? {
      assert ' ' !in a.frac.value;
      assert lit == a.whole + "." + a.frac.value;
    }
    assert SignedText(a) == a.sign + lit;
  }

  /** Neither has the text of links. */
  lemma {:induction false} LinksHaveNoSpace(links: seq<Link>, p: nat)
    requires LinksAt(links, p)
    ensures ' ' !in LinksText(links)
    decreases |links|
  {
    if links != [] {
      LiteralHasNoSpace(links[0].arg);
      LinksHaveNoSpace(links[1..], p);
    }
  }

  /** The text of a chain is left alone by the removal of spaces. */
  lemma {:induction false} ChainStrip(c: Chain, p: nat)
    requires WellFormedChain(c, p)
    ensures Strip(ChainText(c)) == ChainText(c)
  {
    var t := ChainText(c);
    LiteralHasNoSpace(c.lead);
    LinksHaveNoSpace(c.links, p);
    StripSpec(t);
  }

  /** A chain converts to its leading value followed by the pairs of its
      links, at depth 0. */
  lemma {:induction false} ChainToRpn(c: Chain, p: nat)
    requires WellFormedChain(c, p)
    ensures InfixToRpn(ChainText(c)) == Success([Num(SignedValue(c.lead))] + Pairs(Steps(c.links)))
  {
    ChainStrip(c, p);
    LeadStep(c, p);
    LinksStep(c, p);
  }

  /** The leading literal is scanned and output first. */
  lemma {:induction false} LeadStep(c: Chain, p: nat)
    requires WellFormedChain(c, p)
    ensures var e := ChainText(c); var len := |SignedText(c.lead)|;
      && len <= |e|
      && ConvertLevel(e, 0, [], Start, Shared([], 0))
         == ConvertLevel(e, len, [], AfterNumber, Shared([Num(SignedValue(c.lead))], 0))
  {
    var e := ChainText(c);
    var v := SignedValue(c.lead);
    ScanOperand(c.lead, LinksText(c.links), c.links);
    OperandHead(c.lead, LinksText(c.links));
    assert e[0..] == e;
    var len := |SignedText(c.lead)|;
    OperandStep(e, 0, len, [], Start, [], 0, v, len);
    assert [] + [Num(v)] == [Num(v)];
  }

  /** After the leading literal, the links convert to their pairs. */
  lemma {:induction false} LinksStep(c: Chain, p: nat)
    requires WellFormedChain(c, p)
    ensures var e := ChainText(c); var len := |SignedText(c.lead)|;
      && len <= |e|
      && ConvertLevel(e, len, [], AfterNumber, Shared([Num(SignedValue(c.lead))], 0))
         == Success(Level(Shared([Num(SignedValue(c.lead))] + Pairs(Steps(c.links)), 0), |e| - 1))
  {
    var e := ChainText(c);
    var len := |SignedText(c.lead)|;
    assert e[len..] == LinksText(c.links);
    LinksConvert(e, len, c.links, p, SignedValue(c.lead));
  }

  /** From the index where the text of the links starts, with one number
      already output, the level converts to the links' pairs and ends. */
  lemma {:induction false} LinksConvert(e: string, i: nat, links: seq<Link>, p: nat, v: real)
    requires i <= |e| && e[i..] == LinksText(links) && LinksAt(links, p)
    ensures ConvertLevel(e, i, [], AfterNumber, Shared([Num(v)], 0))
      == Success(Level(Shared([Num(v)] + Pairs(Steps(links)), 0), |e| - 1))
  {
    var pos := TextChainAt(e, i, links, p);
    ChainConverts(e, pos, Steps(links), p, v);
  }

  /** From the first position of a chain, with one number already output
      and an empty stack, the level converts to the steps' pairs. */
  lemma {:induction false} ChainConverts(e: string, pos: seq<nat>, steps: seq<Step>, p: nat, v: real)
    requires ChainAt(e, pos, steps, p)
    ensures ConvertLevel(e, pos[0], [], AfterNumber, Shared([Num(v)], 0))
      == Success(Level(Shared([Num(v)] + Pairs(steps), 0), |e| - 1))
  {
    ConvertChain(e, pos, steps, p, 0, [], [Num(v)], 0);
    assert steps[0..] == steps;
    assert StackOps([]) == [];
    assert [Num(v)] + [] + Pairs(steps) == [Num(v)] + Pairs(steps);
  }

  /** `calc` on a chain of one precedence rank computes the left-to-right
      fold of its links over its leading value. */
  lemma {:induction false} CalcChain(c: Chain, p: nat)
    requires WellFormedChain(c, p)
    ensures Calc(ChainText(c)) == FoldLeft(SignedValue(c.lead), Steps(c.links))
  {
    var v := SignedValue(c.lead);
    var pairs := Pairs(Steps(c.links));
    var rpn := [Num(v)] + pairs;
    ChainToRpn(c, p);
    assert rpn[0] == Num(v) && rpn[1..] == pairs;
    assert RunStack(rpn, []) == RunStack(pairs, [] + [Num(v)]);
    assert [] + [Num(v)] == [Num(v)];
    StepsAreOperators(c.links, p);
    RunPairs(v, Steps(c.links));
  }

  /** Every step of well-formed links carries a binary operator. */
  lemma {:induction false} StepsAreOperators(links: seq<Link>, p: nat)
    requires LinksAt(links, p)
    ensures forall s | s in Steps(links) :: IsValidOperator(s.op)
    decreases |links|
  {
    if links != [] {
      assert WellFormedLink(links[0]);
      StepsAreOperators(links[1..], p);
    }
  }
}
