/** Parenthesis bookkeeping: the net depth of a text, the group that the
    number scanner collects after a signed '(' (mathExprParser.js lines
    84-98), and balance, which the converter's depth counter enforces. */
module Parens {
  import opened Tokens
  import opened Lexical

  /** How one character moves the parenthesis depth. */
  function Delta(c: char): int
  {
    if c == '(' then 1 else if c == ')' then -1 else 0
  }

  /** Number of '(' minus number of ')' in the text. */
  function Net(t: string): int
  {
    if t == [] then 0 else Net(t[..|t| - 1]) + Delta(t[|t| - 1])
  }

  /** The scanning loop of lines 89-95: `i` is the next index, `depth` the
      depth reached so far; it stops once the depth is back to 0 or the
      text is exhausted, and returns the length collected. */
  function GroupEnd(body: string, i: nat, depth: int): (j: nat)
    requires i <= |body|
    ensures i <= j <= |body|
    decreases |body| - i
  {
    if depth == 0 || i == |body| then i
    else GroupEnd(body, i + 1, depth + Delta(body[i]))
  }

  /** Started after the opening '(' with the depth of the text read so
      far, and every shorter non-empty prefix still open, the loop stops at
      the first prefix whose depth is back to 0, or at the end. */
  lemma {:induction false} GroupEndSpec(body: string, i: nat, depth: int)
    requires 1 <= i <= |body| && depth == Net(body[..i])
    requires forall k :: 1 <= k < i ==> Net(body[..k]) > 0
    requires depth >= 0
    ensures var j := GroupEnd(body, i, depth);
      && (forall k :: 1 <= k < j ==> Net(body[..k]) > 0)
      && (Net(body[..j]) == 0 || j == |body|)
    decreases |body| - i
  {
    if depth != 0 && i != |body| {
      assert body[..i + 1][..i] == body[..i];
      GroupEndSpec(body, i + 1, depth + Delta(body[i]));
    }
  }

  /** The text of a parenthesised group that starts at the head of `body`:
      from the opening '(' up to the ')' that brings the depth back to 0,
      or all of `body` when no such ')' exists. */
  function CollectGroup(body: string): (g: string)
    requires |body| > 0 && body[0] == '('
    ensures 1 <= |g| <= |body| && g == body[..|g|]
  {
    body[..GroupEnd(body, 1, 1)]
  }

  /** The collected group is a prefix of `body` that stays open until its
      end, where it is closed, unless it runs to the end of `body`. */
  lemma {:induction false} CollectGroupSpec(body: string)
    requires |body| > 0 && body[0] == '('
    ensures var g := CollectGroup(body);
      && (forall k :: 1 <= k < |g| ==> Net(g[..k]) > 0)
      && (Net(g) == 0 || g == body)
  {
    assert body[..1][..0] == [];
    GroupEndSpec(body, 1, 1);
    var g := CollectGroup(body);
    assert forall k :: 1 <= k < |g| ==> g[..k] == body[..k];
  }

  /** Depth after reading `t` from depth `d`; None as soon as a ')' has no
      matching '('. */
  function Walk(t: string, d: nat): Option<nat>
  {
    if t == [] then Some(d)
    else if t[0] == '(' then Walk(t[1..], d + 1)
    else if t[0] == ')' then (if d == 0 then None else Walk(t[1..], d - 1))
    else Walk(t[1..], d)
  }

  /** Every ')' closes an earlier '(' and every '(' is closed. */
  predicate Balanced(t: string)
  {
    Walk(t, 0) == Some(0)
  }

  lemma {:induction false} WalkAppend(a: string, b: string, d: nat)
    ensures Walk(a + b, d) == match Walk(a, d) case None => None case Some(e) => Walk(b, e)
    decreases |a|
  {
    if a == [] {
      assert a + b == b;
    } else {
      assert (a + b)[0] == a[0] && (a + b)[1..] == a[1..] + b;
      if a[0] == '(' {
        WalkAppend(a[1..], b, d + 1);
      } else if a[0] == ')' {
        if d > 0 {
          WalkAppend(a[1..], b, d - 1);
        }
      } else {
        WalkAppend(a[1..], b, d);
      }
    }
  }

  /** Starting deeper only adds to the final depth. */
  lemma {:induction false} WalkShift(t: string, d: nat, k: nat)
    requires Walk(t, d).Some?
    ensures Walk(t, d + k) == Some(Walk(t, d).value + k)
    decreases |t|
  {
    if t != [] {
      if t[0] == '(' {
        WalkShift(t[1..], d + 1, k);
      } else if t[0] == ')' {
        WalkShift(t[1..], d - 1, k);
      } else {
        WalkShift(t[1..], d, k);
      }
    }
  }

  /** Text without parentheses leaves the depth alone. */
  lemma {:induction false} WalkNoParens(t: string, d: nat)
    requires forall k :: 0 <= k < |t| ==> t[k] != '(' && t[k] != ')'
    ensures Walk(t, d) == Some(d)
    decreases |t|
  {
    if t != [] {
      WalkNoParens(t[1..], d);
    }
  }

  /** Spaces do not affect balance. */
  lemma {:induction false} WalkStrip(t: string, d: nat)
    ensures Walk(Strip(t), d) == Walk(t, d)
    decreases |t|
  {
    if t != [] {
      assert t == [t[0]] + t[1..];
      StripAppend([t[0]], t[1..]);
      assert Strip([t[0]]) == if t[0] == ' ' then [] else [t[0]];
      WalkAppend(Strip([t[0]]), Strip(t[1..]), d);
      if t[0] == '(' {
        WalkStrip(t[1..], d + 1);
      } else if t[0] == ')' {
        if d > 0 {
          WalkStrip(t[1..], d - 1);
        }
      } else {
        WalkStrip(t[1..], d);
      }
    }
  }
}
