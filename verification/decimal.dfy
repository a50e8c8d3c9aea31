/** Decimal text of integers: Python's `str(n)` on an `int`, and the
    subset of `int(token)` the range syntax uses (surrounding ASCII
    whitespace, an optional sign, one or more ASCII digits). */
module Decimal {
  import opened Results
  import opened Text

  predicate IsDigit(c: char) {
    '0' <= c <= '9'
  }

  /** A non-empty run of ASCII digits. */
  predicate IsDigits(s: string) {
    |s| >= 1 && forall i :: 0 <= i < |s| ==> IsDigit(s[i])
  }

  function DigitValue(c: char): nat
    requires IsDigit(c)
  {
    c as int - '0' as int
  }

  function DigitChar(d: nat): (c: char)
    requires d < 10
    ensures IsDigit(c) && DigitValue(c) == d
  {
    ('0' as int + d) as char
  }

  /** The number a string of digits denotes (leading zeros allowed). */
  function DigitsValue(s: string): nat
    requires forall i :: 0 <= i < |s| ==> IsDigit(s[i])
    decreases |s|
  {
    if |s| == 0 then 0 else DigitsValue(s[..|s| - 1]) * 10 + DigitValue(s[|s| - 1])
  }

  /** `str(n)` for a non-negative `n`: digits only, without leading zeros. */
  function NatToDecimal(n: nat): (s: string)
    ensures IsDigits(s)
    ensures |s| > 1 ==> s[0] != '0'
    decreases n
  {
    if n < 10 then [DigitChar(n)] else NatToDecimal(n / 10) + [DigitChar(n % 10)]
  }

  /** `str(v)` for any integer: a minus sign in front of negative values. */
  function IntToDecimal(v: int): (s: string)
    ensures |s| >= 1
    ensures s[0] == '-' <==> v < 0
    ensures v >= 0 ==> IsDigits(s)
    ensures v < 0 ==> IsDigits(s[1..])
    ensures v >= 0 && |s| > 1 ==> s[0] != '0'
    ensures v < 0 ==> s[1] != '0'
  {
    if v < 0 then "-" + NatToDecimal(-v) else NatToDecimal(v)
  }

  /** Reading back the digits of `str(n)` gives `n`. */
  lemma {:induction false} NatToDecimalValue(n: nat)
    ensures DigitsValue(NatToDecimal(n)) == n
    decreases n
  {
    var s := NatToDecimal(n);
    if n >= 10 {
      NatToDecimalValue(n / 10);
      assert s[..|s| - 1] == NatToDecimal(n / 10);
    }
  }

  /** Distinct numbers have distinct decimal texts. */
  lemma NatToDecimalInjective(a: nat, b: nat)
    ensures NatToDecimal(a) == NatToDecimal(b) <==> a == b
  {
    NatToDecimalValue(a);
    NatToDecimalValue(b);
  }

  /** `int(token)`: `None` where Python raises `ValueError`. */
  function ParseInt(token: string): Option<int> {
    var t := Strip(token);
    if |t| >= 2 && (t[0] == '-' || t[0] == '+') && IsDigits(t[1..]) then
      var magnitude: int := DigitsValue(t[1..]);
      Some(if t[0] == '-' then -magnitude else magnitude)
    else if IsDigits(t) then
      Some(DigitsValue(t))
    else
      None
  }

  /** A plain run of digits parses to the number it denotes, and a token
      that is empty, all whitespace, or a lone sign does not parse. */
  lemma ParseIntDigits(token: string)
    ensures IsDigits(token) ==> ParseInt(token) == Some(DigitsValue(token))
    ensures |Strip(token)| == 0 ==> ParseInt(token) == None
    ensures Strip(token) == "-" || Strip(token) == "+" ==> ParseInt(token) == None
  {
    if IsDigits(token) {
      StripUnpadded(token);
    }
  }

  /** A sign in front of the digits negates or keeps their value. */
  lemma ParseIntSigned(digits: string)
    requires IsDigits(digits)
    ensures ParseInt("-" + digits) == Some(-(DigitsValue(digits) as int))
    ensures ParseInt("+" + digits) == Some(DigitsValue(digits))
  {
    var minus, plus := "-" + digits, "+" + digits;
    StripUnpadded(minus);
    StripUnpadded(plus);
    assert minus[1..] == digits && plus[1..] == digits;
  }

  /** Whitespace around a token does not change what `int` makes of it. */
  lemma ParseIntPadded(lead: string, token: string, trail: string)
    requires forall i :: 0 <= i < |lead| ==> IsSpace(lead[i])
    requires forall i :: 0 <= i < |trail| ==> IsSpace(trail[i])
    requires |token| > 0 && !IsSpace(token[0]) && !IsSpace(token[|token| - 1])
    ensures ParseInt(lead + token + trail) == ParseInt(token)
  {
    StripPadded(lead, token, trail);
    StripUnpadded(token);
  }

  /** A character that is neither a digit nor a leading sign, anywhere in
      the stripped token, makes `int` fail. */
  lemma ParseIntRejects(token: string, i: nat)
    requires i < |Strip(token)|
    requires !IsDigit(Strip(token)[i])
    requires i > 0 || (Strip(token)[0] != '-' && Strip(token)[0] != '+')
    ensures ParseInt(token) == None
  {
    var t := Strip(token);
    if i > 0 && |t| >= 2 {
      assert t[1..][i - 1] == t[i];
    }
  }

  /** The information separator U+001C counts as whitespace for
      `str.isspace` but not for `int`: `int("\x1c7")` fails. The token is
      pinned by `requires` so that the verifier does not unfold the parser
      on the literal. */
  lemma SeparatorRejected(token: string)
    requires token == "\U{1C}7"
    ensures ParseInt(token) == None
  {
    assert !IsSpace(token[0]) && !IsSpace(token[1]);
    StripUnpadded(token);
    ParseIntRejects(token, 0);
  }

  /** `int(str(v)) == v` for every integer. */
  lemma IntToDecimalRoundTrip(v: int)
    ensures ParseInt(IntToDecimal(v)) == Some(v)
  {
    var s := IntToDecimal(v);
    StripUnpadded(s);
    assert Strip(s) == s;
    if v < 0 {
      var d := NatToDecimal(-v);
      assert s == "-" + d;
      assert s[1..] == d;
      NatToDecimalValue(-v);
      assert IsDigits(s[1..]) && DigitsValue(s[1..]) == -v;
    } else {
      NatToDecimalValue(v);
      assert !IsSpace(s[0]) && s[0] != '-' && s[0] != '+';
      assert IsDigits(s);
    }
  }
}
