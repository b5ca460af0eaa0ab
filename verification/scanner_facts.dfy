/** What the number scanner `getNumber` (mathExprParser.js lines 62-128)
    computes, stated against texts built from their parts: an optional sign,
    a digit literal with an optional fraction, or a parenthesised group. */
module ScannerFacts {
  import opened Tokens
  import opened Lexical
  import opened Parens
  import opened Converter

  /** A sign the scanner may find in front of a number: none, "+" or "-". */
  predicate IsSignText(sign: string)
  {
    sign == "" || sign == "+" || sign == "-"
  }

  /** The text of a decimal literal with whole part `w` and, when `frac` is
      present, a point and fraction digits. */
  function LiteralText(w: string, frac: Option<string>): string
  {
    match frac
    case None => w
    case Some(f) => w + "." + f
  }

  /** The value of such a literal, computed from its parts. */
  function PartsValue(w: string, frac: Option<string>): real
    requires AllDigits(w)
    requires frac.Some? ==> AllDigits(frac.value)
  {
    match frac
    case None => DigitsValue(w) as real
    case Some(f) => DigitsValue(w) as real + DigitsValue(f) as real / Pow10(|f|) as real
  }

  /** Well-formed literal parts: digits before the point and, when there is
      a point, digits after it. */
  predicate LiteralParts(w: string, frac: Option<string>)
  {
    IsInteger(w) && (frac.Some? ==> IsInteger(frac.value))
  }

  /** What may follow a literal without extending it: nothing, or a
      character that is neither a digit nor, for an integer, a point that
      starts a fraction. */
  predicate EndsLiteral(frac: Option<string>, rest: string)
  {
    || rest == []
    || (!IsDigit(rest[0]) && (frac.None? && rest[0] == '.' ==> |rest| == 1 || !IsDigit(rest[1])))
  }

  /** A digit run followed by a non-digit (or nothing) has exactly the run's
      length. */
  lemma {:induction false} DigitRunOf(w: string, rest: string)
    requires AllDigits(w)
    requires rest == [] || !IsDigit(rest[0])
    ensures DigitRun(w + rest) == |w|
  {
    var t := w + rest;
    assert t[..|w|] == w;
    DigitRunCoversDigits(t, |w|);
    if rest != [] {
      assert t[|w|] == rest[0];
      DigitRunStopsAt(t, |w|);
    }
  }

  /** The longest literal at the head of `LiteralText(w, frac) + rest` is
      exactly `LiteralText(w, frac)`. */
  lemma {:induction false} LiteralLengthOf(w: string, frac: Option<string>, rest: string)
    requires LiteralParts(w, frac) && EndsLiteral(frac, rest)
    ensures var body := LiteralText(w, frac) + rest;
      LiteralLength(body) == |LiteralText(w, frac)| &&
      body[..LiteralLength(body)] == LiteralText(w, frac)
  {
    var lit := LiteralText(w, frac);
    assert (lit + rest)[..|lit|] == lit;
    match frac
    case None => IntegerLength(w, rest);
    case Some(f) => FloatLength(w, f, rest);
  }

  lemma {:induction false} IntegerLength(w: string, rest: string)
    requires IsInteger(w)
    requires rest == [] || (!IsDigit(rest[0]) && (rest[0] == '.' ==> |rest| == 1 || !IsDigit(rest[1])))
    ensures LiteralLength(w + rest) == |w|
  {
    var body := w + rest;
    DigitRunOf(w, rest);
    var k := |w|;
    if 0 < k < |body| - 1 && body[k] == '.' {
      var after := body[k + 1..];
      assert after[0] == rest[1];
      assert DigitRun(after) == 0;
    }
  }

  lemma {:induction false} FloatLength(w: string, f: string, rest: string)
    requires IsInteger(w) && IsInteger(f)
    requires rest == [] || !IsDigit(rest[0])
    ensures LiteralLength(w + "." + f + rest) == |w| + 1 + |f|
  {
    var body := w + "." + f + rest;
    assert body == w + ("." + f + rest);
    DigitRunOf(w, "." + f + rest);
    var k := |w|;
    assert body[k] == '.';
    assert body[k + 1..] == f + rest;
    DigitRunOf(f, rest);
  }

  /** How the scanner splits a sign text from what follows it. */
  lemma {:induction false} SignSplit(sign: string, rest: string)
    requires IsSignText(sign)
    requires sign == "" ==> rest == [] || !IsSign(rest[0])
    ensures AfterSign(sign + rest) == rest
    ensures SignLength(sign + rest) == |sign|
    ensures Negative(sign + rest) <==> sign == "-"
  {
    var str := sign + rest;
    if sign == "" {
      assert str == rest;
    } else {
      assert str[0] == sign[0] && str[1..] == rest;
    }
  }

  /** A signed literal: the sign is applied to the literal's value, and the
      length consumed is the literal's plus one for a sign (lines 68-74 and
      110-127). The point-and-fraction form is taken whenever it is there. */
  lemma {:induction false} ScanSignedLiteral(sign: string, w: string, frac: Option<string>, rest: string)
    requires IsSignText(sign) && LiteralParts(w, frac) && EndsLiteral(frac, rest)
    ensures ScanNumber(sign + LiteralText(w, frac) + rest)
         == Success(Scanned(Num(Signed(sign == "-", PartsValue(w, frac))),
                            |sign| + |LiteralText(w, frac)|))
  {
    var lit := LiteralText(w, frac);
    LiteralPartsValue(w, frac);
    ScanOfLiteralText(sign, lit, rest) by {
      LiteralLengthOf(w, frac, rest);
    }
    ConcatAssoc(sign, lit, rest);
  }

  lemma ConcatAssoc(a: string, b: string, c: string)
    ensures a + b + c == a + (b + c)
  {
  }

  lemma {:induction false} ScanOfLiteralText(sign: string, lit: string, rest: string)
    requires IsSignText(sign) && IsDecimal(lit) && LiteralLength(lit + rest) == |lit|
    ensures ScanNumber(sign + (lit + rest))
         == Success(Scanned(Num(Signed(sign == "-", LiteralValue(lit))), |sign| + |lit|))
  {
    var str := sign + (lit + rest);
    SignedLiteralSplit(sign, lit, rest);
    ScanLiteralText(str, lit, rest, sign == "-", |sign|);
  }

  lemma {:induction false} SignedLiteralSplit(sign: string, lit: string, rest: string)
    requires IsSignText(sign) && IsDecimal(lit)
    ensures var str := sign + (lit + rest);
      AfterSign(str) == lit + rest && SignLength(str) == |sign| && (Negative(str) <==> sign == "-")
  {
    DecimalStartsWithDigit(lit);
    assert (lit + rest)[0] == lit[0];
    SignSplit(sign, lit + rest);
  }

  /** A literal built from parts is a decimal literal with the parts' value. */
  lemma {:induction false} LiteralPartsValue(w: string, frac: Option<string>)
    requires LiteralParts(w, frac)
    ensures IsDecimal(LiteralText(w, frac))
    ensures LiteralValue(LiteralText(w, frac)) == PartsValue(w, frac)
  {
    match frac
    case None =>
      LiteralValueOfParts(w, "");
    case Some(f) =>
      LiteralValueOfParts(w, f);
  }

  /** The scanner on a text whose longest literal after the sign is `lit`. */
  lemma {:induction false} ScanLiteralText(str: string, lit: string, rest: string, negative: bool, signLen: nat)
    requires AfterSign(str) == lit + rest && IsDecimal(lit)
    requires LiteralLength(lit + rest) == |lit|
    requires Negative(str) == negative && SignLength(str) == signLen
    ensures ScanNumber(str) == Success(Scanned(Num(Signed(negative, LiteralValue(lit))), signLen + |lit|))
  {
    DecimalStartsWithDigit(lit);
    assert (lit + rest)[0] == lit[0];
    assert ScanNumber(str) == ScanLiteral(str);
    LiteralOutcome(str, lit, rest);
  }

  /** The literal path, once the literal at the head is known. */
  lemma {:induction false} LiteralOutcome(str: string, lit: string, rest: string)
    requires AfterSign(str) == lit + rest && IsDecimal(lit)
    requires LiteralLength(lit + rest) == |lit|
    ensures ScanLiteral(str) == Success(Scanned(Num(Signed(Negative(str), LiteralValue(lit))), SignLength(str) + |lit|))
  {
    assert (lit + rest)[..|lit|] == lit;
    DecimalStartsWithDigit(lit);
  }

  /** The scanner's outcome for a group whose value under `Calc` is `value`:
      a signed number, a NaN entry for a NaN group, or the group's error. */
  function GroupScan(negative: bool, value: Result<real>, len: nat): Result<Scanned>
  {
    match value
    case Success(v) => Success(Scanned(Num(Signed(negative, v)), len))
    case Failure(NotANumber) => Success(Scanned(NaN, len))
    case Failure(e) => Failure(e)
  }

  /** A sign followed by a parenthesised group (lines 81-107): the group
      runs to the ')' that brings the depth back to 0, or to the end of the
      text when there is none; its value under `Calc` is signed, a NaN group
      gives a NaN entry, and the length is the group's plus the sign's. */
  lemma {:induction false} ScanSignedGroup(sign: string, rest: string)
    requires IsSignText(sign) && |rest| > 0 && rest[0] == '('
    ensures var g := CollectGroup(rest);
      ScanNumber(sign + rest) == GroupScan(sign == "-", Calc(g), |sign| + |g|)
  {
    var str := sign + rest;
    SignSplit(sign, rest);
    GroupOutcome(str, rest, sign == "-", |sign|);
  }

  /** The group path, once the sign is known. */
  lemma {:induction false} GroupOutcome(str: string, body: string, negative: bool, signLen: nat)
    requires AfterSign(str) == body && |body| > 0 && body[0] == '('
    requires Negative(str) == negative && SignLength(str) == signLen
    ensures var g := CollectGroup(body);
      ScanNumber(str) == GroupScan(negative, Calc(g), signLen + |g|)
  {
    assert ScanNumber(str) == ScanGroup(str);
  }

  /** A number is required, but after the optional sign there is neither a
      '(' nor a digit (lines 81 and 110-112): the expression is invalid. */
  lemma {:induction false} ScanRejects(sign: string, rest: string)
    requires IsSignText(sign)
    requires rest == [] || (rest[0] != '(' && !IsDigit(rest[0]))
    requires sign == "" ==> rest == [] || !IsSign(rest[0])
    ensures ScanNumber(sign + rest) == Failure(InvalidExpression)
  {
    SignSplit(sign, rest);
  }
}
