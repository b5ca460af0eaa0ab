/** Character-level facts used by the number scanner: digit runs, the
    longest decimal literal at the head of a text (the outcome of the
    `^\d+\.\d+` and `^\d+` patterns of mathExprParser.js lines 65-66 and
    110-116), its value (parseFloat without rounding), and the removal of
    spaces done before parsing (line 237). */
module Lexical {

  predicate IsDigit(c: char)
  {
    '0' <= c <= '9'
  }

  predicate AllDigits(t: string)
  {
    forall k :: 0 <= k < |t| ==> IsDigit(t[k])
  }

  /** Text matching `\d+`. */
  predicate IsInteger(t: string)
  {
    |t| > 0 && AllDigits(t)
  }

  /** Text matching `\d+\.\d+`. */
  ghost predicate IsFloat(t: string)
  {
    exists k :: PointAt(t, k)
  }

  /** The point at index `k` splits `t` into two non-empty digit strings. */
  predicate PointAt(t: string, k: int)
  {
    0 < k < |t| - 1 && t[k] == '.' && IsInteger(t[..k]) && IsInteger(t[k + 1..])
  }

  /** Text of a decimal literal: `\d+` or `\d+\.\d+`. */
  ghost predicate IsDecimal(t: string)
  {
    IsInteger(t) || IsFloat(t)
  }

  /** Length of the run of digits that starts the text. */
  function DigitRun(t: string): (n: nat)
    ensures n <= |t|
    ensures AllDigits(t[..n])
    ensures n < |t| ==> !IsDigit(t[n])
  {
    if |t| > 0 && IsDigit(t[0]) then
      var m := DigitRun(t[1..]);
      assert t[..1 + m] == [t[0]] + t[1..][..m];
      1 + m
    else 0
  }

  /** The digit run of a text is at least as long as any all-digit prefix. */
  lemma {:induction false} DigitRunCoversDigits(t: string, m: nat)
    requires m <= |t| && AllDigits(t[..m])
    ensures m <= DigitRun(t)
  {
    if m > 0 {
      assert IsDigit(t[..m][0]);
      assert t[1..][..m - 1] == t[..m][1..];
      DigitRunCoversDigits(t[1..], m - 1);
    }
  }

  /** The digit run stops at or before the first non-digit. */
  lemma {:induction false} DigitRunStopsAt(t: string, p: nat)
    requires p < |t| && !IsDigit(t[p])
    ensures DigitRun(t) <= p
  {
    if p > 0 && IsDigit(t[0]) {
      DigitRunStopsAt(t[1..], p - 1);
    }
  }

  /** A float's integer part is exactly the digit run of the whole text. */
  lemma {:induction false} FloatSplit(t: string)
    requires IsFloat(t)
    ensures 0 < DigitRun(t) < |t| - 1 && t[DigitRun(t)] == '.'
    ensures IsInteger(t[DigitRun(t) + 1..])
  {
    var p :| PointAt(t, p);
    DigitRunCoversDigits(t, p);
    DigitRunStopsAt(t, p);
  }

  /** Length of the longest decimal literal at the head of `t`, 0 when there
      is none. The float pattern is tried first and wins whenever it
      matches; a float match is always the longer of the two. */
  function LiteralLength(t: string): (n: nat)
    ensures n <= |t|
    ensures n > 0 ==> IsDecimal(t[..n])
    ensures n > 0 <==> |t| > 0 && IsDigit(t[0])
  {
    var k := DigitRun(t);
    var j := if 0 < k < |t| - 1 && t[k] == '.' then DigitRun(t[k + 1..]) else 0;
    var n := if j > 0 then k + 1 + j else k;
    LiteralLengthFacts(t, k, j);
    n
  }

  /** No decimal literal at the head of `t` is longer than the one
      `LiteralLength` reports: the match is the longest. */
  lemma {:induction false} LiteralLengthIsLongest(t: string, m: nat)
    requires 0 < m <= |t| && IsDecimal(t[..m])
    ensures m <= LiteralLength(t)
  {
    var k := DigitRun(t);
    var j := if 0 < k < |t| - 1 && t[k] == '.' then DigitRun(t[k + 1..]) else 0;
    LiteralLengthFacts(t, k, j);
    DecimalPrefixWithin(t, k, j, m);
  }

  lemma {:induction false} LiteralLengthFacts(t: string, k: nat, j: nat)
    requires k == DigitRun(t)
    requires j == if 0 < k < |t| - 1 && t[k] == '.' then DigitRun(t[k + 1..]) else 0
    ensures var n := if j > 0 then k + 1 + j else k;
      && n <= |t|
      && (n > 0 ==> IsDecimal(t[..n]))
      && (n > 0 <==> |t| > 0 && IsDigit(t[0]))
  {
    var n := if j > 0 then k + 1 + j else k;
    if j > 0 {
      FloatPrefix(t, k, j);
    } else if k > 0 {
      assert IsInteger(t[..k]);
    }
    if |t| > 0 && IsDigit(t[0]) {
      assert IsInteger(t[..1]);
      DigitRunCoversDigits(t, 1);
    }
  }

  /** Digits, a point and more digits at the head of `t` form a float. */
  lemma {:induction false} FloatPrefix(t: string, k: nat, j: nat)
    requires 0 < k && 0 < j && k + 1 + j <= |t|
    requires AllDigits(t[..k]) && t[k] == '.' && AllDigits(t[k + 1..][..j])
    ensures IsFloat(t[..k + 1 + j])
  {
    var u := t[..k + 1 + j];
    assert u[..k] == t[..k];
    assert u[k + 1..] == t[k + 1..][..j];
    assert PointAt(u, k);
  }

  /** Any decimal literal at the head of `t` ends within the digit run `k`,
      or within the point and the digit run `j` after it. */
  lemma {:induction false} DecimalPrefixWithin(t: string, k: nat, j: nat, m: nat)
    requires k == DigitRun(t)
    requires j == if 0 < k < |t| - 1 && t[k] == '.' then DigitRun(t[k + 1..]) else 0
    requires 0 < m <= |t| && IsDecimal(t[..m])
    ensures m <= (if j > 0 then k + 1 + j else k)
  {
    var u := t[..m];
    if IsInteger(u) {
      DigitRunCoversDigits(t, m);
    } else {
      var p :| PointAt(u, p);
      PointIsRunEnd(t, m, p);
      FractionWithin(t, m, p);
    }
  }

  /** The point of a float at the head of `t` sits where the digit run ends. */
  lemma {:induction false} PointIsRunEnd(t: string, m: nat, p: nat)
    requires m <= |t| && PointAt(t[..m], p)
    ensures p == DigitRun(t) && t[p] == '.'
  {
    assert t[..m][..p] == t[..p];
    assert t[..m][p] == t[p];
    DigitRunCoversDigits(t, p);
    DigitRunStopsAt(t, p);
  }

  /** The fraction of a float at the head of `t` lies within the digit run
      after the point. */
  lemma {:induction false} FractionWithin(t: string, m: nat, p: nat)
    requires m <= |t| && PointAt(t[..m], p)
    ensures m - p - 1 <= DigitRun(t[p + 1..])
  {
    var rest := t[p + 1..];
    assert rest[..m - p - 1] == t[..m][p + 1..];
    DigitRunCoversDigits(rest, m - p - 1);
  }

  /** A decimal literal consists of digits and points only. */
  lemma {:induction false} DecimalChars(t: string)
    requires IsDecimal(t)
    ensures forall k :: 0 <= k < |t| ==> IsDigit(t[k]) || t[k] == '.'
  {
    if IsFloat(t) {
      FloatSplit(t);
      var p := DigitRun(t);
      forall k | 0 <= k < |t|
        ensures IsDigit(t[k]) || t[k] == '.'
      {
        if k < p {
          assert t[..p][k] == t[k];
        } else if k > p {
          assert t[p + 1..][k - p - 1] == t[k];
        }
      }
    }
  }

  lemma {:induction false} DecimalStartsWithDigit(t: string)
    requires IsDecimal(t)
    ensures IsDigit(t[0])
  {
    if IsFloat(t) {
      FloatSplit(t);
      assert t[..DigitRun(t)][0] == t[0];
    }
  }

  function DigitValue(c: char): nat
    requires IsDigit(c)
  {
    c as int - '0' as int
  }

  /** The value of a digit string read in base ten. */
  function DigitsValue(t: string): nat
    requires AllDigits(t)
  {
    if t == [] then 0 else DigitsValue(t[..|t| - 1]) * 10 + DigitValue(t[|t| - 1])
  }

  function Pow10(n: nat): (p: nat)
    ensures p > 0
  {
    if n == 0 then 1 else 10 * Pow10(n - 1)
  }

  /** parseFloat on a decimal literal, exactly (no rounding). */
  function LiteralValue(t: string): real
    requires IsDecimal(t)
  {
    if IsInteger(t) then DigitsValue(t) as real
    else
      FloatSplit(t);
      var k := DigitRun(t);
      DigitsValue(t[..k]) as real + DigitsValue(t[k + 1..]) as real / Pow10(|t| - k - 1) as real
  }

  /** The value of a literal written as whole digits, optionally followed by
      a point and fraction digits. */
  lemma {:induction false} LiteralValueOfParts(w: string, f: string)
    requires IsInteger(w)
    ensures IsDecimal(w) && LiteralValue(w) == DigitsValue(w) as real
    ensures IsInteger(f) ==> IsDecimal(w + "." + f)
    ensures IsInteger(f) ==>
      LiteralValue(w + "." + f) == DigitsValue(w) as real + DigitsValue(f) as real / Pow10(|f|) as real
  {
    if IsInteger(f) {
      var t := w + "." + f;
      assert t[..|w|] == w && t[|w| + 1..] == f && t[|w|] == '.';
      assert PointAt(t, |w|);
      assert !IsDigit(t[|w|]);
      assert !IsInteger(t);
      FloatSplit(t);
      DigitRunCoversDigits(t, |w|);
      DigitRunStopsAt(t, |w|);
    }
  }

  /** The expression text with every space removed. */
  function Strip(s: string): (r: string)
    ensures |r| <= |s|
  {
    if s == [] then []
    else if s[0] == ' ' then Strip(s[1..])
    else [s[0]] + Strip(s[1..])
  }

  /** Stripping drops only spaces: the result has no space, text without
      spaces is unchanged, and every other character occurs as often as
      before. */
  lemma {:induction false} StripSpec(s: string)
    ensures forall k :: 0 <= k < |Strip(s)| ==> Strip(s)[k] != ' '
    ensures (forall k :: 0 <= k < |s| ==> s[k] != ' ') ==> Strip(s) == s
    ensures forall c :: c != ' ' ==> multiset(Strip(s))[c] == multiset(s)[c]
  {
    if s != [] {
      var rest := Strip(s[1..]);
      StripSpec(s[1..]);
      assert s == [s[0]] + s[1..];
      if (forall k :: 0 <= k < |s| ==> s[k] != ' ') {
        assert forall k :: 0 <= k < |s[1..]| ==> s[1..][k] != ' ' by {
          forall k | 0 <= k < |s[1..]|
            ensures s[1..][k] != ' '
          {
            assert s[1..][k] == s[k + 1];
          }
        }
      }
      if s[0] != ' ' {
        var r := [s[0]] + rest;
        forall k | 0 <= k < |r|
          ensures r[k] != ' '
        {
          if k > 0 {
            assert r[k] == rest[k - 1];
          }
        }
      }
    }
  }

  /** Removing spaces distributes over concatenation. */
  lemma {:induction false} StripAppend(a: string, b: string)
    ensures Strip(a + b) == Strip(a) + Strip(b)
    decreases |a|
  {
    if a == [] {
      assert a + b == b;
    } else {
      assert (a + b)[1..] == a[1..] + b;
      StripAppend(a[1..], b);
    }
  }
}
