/**
 Python's `float(str)` as the discount handler uses it. A parsed number is
 kept as an exact decimal (sign, integer mantissa, power of ten) and read as
 a Dafny `real`: it is not rounded to a binary double. Infinities and NaN are
 kept, because the discount range check treats them differently from numbers.
 */
module PyFloat {
  import opened Wrappers
  import opened Text

  datatype Float =
    | Finite(negative: bool, mantissa: nat, exponent: int)
    | Infinite(negative: bool)
    | NaN
  {
    /** The exact value of a finite float. */
    function Value(): real
      requires Finite?
    {
      var magnitude := mantissa as real * Scale(exponent);
      if negative then -magnitude else magnitude
    }
  }

  function Pow10(n: nat): (p: nat)
    ensures p >= 1
  {
    if n == 0 then 1 else 10 * Pow10(n - 1)
  }

  /** The real factor `10 ** x`. */
  function Scale(x: int): (r: real)
    ensures r > 0.0
  {
    if x >= 0 then Pow10(x) as real else 1.0 / (Pow10(-x) as real)
  }

  /** IEEE comparison `x < c` against a finite constant: false for NaN. */
  predicate Less(x: Float, c: real) {
    match x
    case Finite(_, _, _) => x.Value() < c
    case Infinite(neg) => neg
    case NaN => false
  }

  /** IEEE comparison `x >= c` against a finite constant: false for NaN. */
  predicate AtLeast(x: Float, c: real) {
    match x
    case Finite(_, _, _) => x.Value() >= c
    case Infinite(neg) => !neg
    case NaN => false
  }

  function Lower(c: char): char {
    if 'A' <= c <= 'Z' then (c as int + 32) as char else c
  }

  function LowerString(s: string): (r: string)
    ensures |r| == |s|
    ensures forall i :: 0 <= i < |s| && !('A' <= s[i] <= 'Z') ==> r[i] == s[i]
    decreases |s|
  {
    if |s| == 0 then "" else [Lower(s[0])] + LowerString(s[1..])
  }

  /** Python's `s.replace(from, to)` for single characters. */
  function ReplaceChar(s: string, from: char, to: char): (r: string)
    ensures |r| == |s|
    ensures forall i :: 0 <= i < |s| ==> r[i] == (if s[i] == from then to else s[i])
    decreases |s|
  {
    if |s| == 0 then "" else [if s[0] == from then to else s[0]] + ReplaceChar(s[1..], from, to)
  }

  /** The first position of `c` in `s`. */
  function IndexOf(s: string, c: char): (r: Option<nat>)
    ensures r.None? <==> c !in s
    ensures r.Some? ==> r.value < |s| && s[r.value] == c && c !in s[..r.value]
    decreases |s|
  {
    if |s| == 0 then None
    else if s[0] == c then Some(0)
    else match IndexOf(s[1..], c)
      case None => None
      case Some(k) => Some(k + 1)
  }

  /** An exact decimal `mantissa * 10 ** exponent` without sign. */
  datatype Decimal = Decimal(mantissa: nat, exponent: int)

  /** `digits [. digits] | . digits`, underscores allowed between digits. */
  function ParseMantissa(m: string): Option<Decimal> {
    match IndexOf(m, '.')
    case None =>
      if DigitRun(m) then Some(Decimal(DigitsValue(m), 0)) else None
    case Some(d) =>
      var whole := m[..d];
      var frac := m[d + 1..];
      if |whole| == 0 && |frac| == 0 then None
      else if |whole| > 0 && !DigitRun(whole) then None
      else if |frac| > 0 && !DigitRun(frac) then None
      else
        assert DigitsOrUnderscores(whole) && DigitsOrUnderscores(frac);
        var places := DigitCount(frac);
        Some(Decimal(DigitsValue(whole) * Pow10(places) + DigitsValue(frac), -(places as int)))
  }

  /** The exponent after `e`/`E`: an optional sign and a digit run. */
  function ParseExponent(x: string): Option<int> {
    if |x| > 0 && (x[0] == '-' || x[0] == '+') then
      if !DigitRun(x[1..]) then None
      else if x[0] == '-' then Some(-(DigitsValue(x[1..]) as int))
      else Some(DigitsValue(x[1..]) as int)
    else if DigitRun(x) then Some(DigitsValue(x) as int)
    else None
  }

  /** A decimal literal without sign, with an optional exponent. */
  function ParseUnsignedDecimal(b: string): Option<Decimal> {
    var e := match IndexOf(LowerString(b), 'e') case None => |b| case Some(k) => k;
    var mantissa := ParseMantissa(b[..e]);
    var exponent := if e == |b| then Some(0) else ParseExponent(b[e + 1..]);
    if mantissa.None? || exponent.None? then None
    else Some(Decimal(mantissa.value.mantissa, mantissa.value.exponent + exponent.value))
  }

  /** An unsigned literal: `inf`, `infinity` or `nan` in any case, or a decimal. */
  function ParseUnsigned(body: string, negative: bool): Option<Float> {
    var word := LowerString(body);
    if word == "inf" || word == "infinity" then Some(Infinite(negative))
    else if word == "nan" then Some(NaN)
    else match ParseUnsignedDecimal(body)
      case None => None
      case Some(d) => Some(Finite(negative, d.mantissa, d.exponent))
  }

  /** Python's `float(s)`: None where Python raises ValueError. */
  function ParseFloat(s: string): Option<Float> {
    var t := Strip(s);
    if |t| == 0 then None
    else if t[0] == '-' || t[0] == '+' then ParseUnsigned(t[1..], t[0] == '-')
    else ParseUnsigned(t, false)
  }

  lemma DigitsHaveNoLetters(s: string)
    requires forall i :: 0 <= i < |s| ==> IsDigit(s[i])
    ensures LowerString(s) == s
    ensures 'e' !in s && '.' !in s
    ensures s != "inf" && s != "infinity" && s != "nan"
  {
  }

  /** A digit string reads as its decimal value, with no sign and no exponent. */
  lemma ParseUnsignedOfDigits(digits: string, negative: bool)
    requires DigitRun(digits)
    requires forall i :: 0 <= i < |digits| ==> IsDigit(digits[i])
    ensures ParseUnsigned(digits, negative) == Some(Finite(negative, DigitsValue(digits), 0))
  {
    DigitsHaveNoLetters(digits);
    assert IndexOf(LowerString(digits), 'e') == None;
    assert IndexOf(digits, '.') == None;
    assert digits[..|digits|] == digits;
  }

  /** `float(t)` for a text without padding or sign reads it as unsigned. */
  lemma ParseFloatUnsigned(t: string)
    requires Strip(t) == t && |t| > 0 && t[0] != '-' && t[0] != '+'
    ensures ParseFloat(t) == ParseUnsigned(t, false)
  {
  }

  /** `float("-" + t)` for a text without padding reads t as a negative number. */
  lemma ParseFloatNegated(t: string)
    requires Strip("-" + t) == "-" + t
    ensures ParseFloat("-" + t) == ParseUnsigned(t, true)
  {
    assert ("-" + t)[0] == '-' && ("-" + t)[1..] == t;
  }

  /** `float(digits)` for a digit string. */
  lemma ParseFloatOfDigits(digits: string)
    requires DigitRun(digits)
    requires forall i :: 0 <= i < |digits| ==> IsDigit(digits[i])
    ensures ParseFloat(digits) == Some(Finite(false, DigitsValue(digits), 0))
  {
    StripUnpadded(digits);
    ParseFloatUnsigned(digits);
    ParseUnsignedOfDigits(digits, false);
  }

  /** `float("-" + digits)` for a digit string. */
  lemma ParseFloatOfNegatedDigits(digits: string)
    requires DigitRun(digits)
    requires forall i :: 0 <= i < |digits| ==> IsDigit(digits[i])
    ensures ParseFloat("-" + digits) == Some(Finite(true, DigitsValue(digits), 0))
  {
    assert Strip("-" + digits) == "-" + digits by {
      StripUnpadded("-" + digits);
    }
    ParseFloatNegated(digits);
    ParseUnsignedOfDigits(digits, true);
  }

  /** A float with exponent 0 is its signed mantissa. */
  lemma WholeValue(negative: bool, m: nat)
    ensures Finite(negative, m, 0).Value() == if negative then -(m as real) else m as real
  {
    assert Scale(0) == 1.0;
  }

  lemma ParseFloatOfNatToString(m: nat)
    ensures ParseFloat(NatToString(m)) == Some(Finite(false, m, 0))
  {
    NatToStringValue(m);
    ParseFloatOfDigits(NatToString(m));
  }

  lemma ParseFloatOfNegatedNatToString(m: nat)
    ensures ParseFloat("-" + NatToString(m)) == Some(Finite(true, m, 0))
  {
    NatToStringValue(m);
    ParseFloatOfNegatedDigits(NatToString(m));
  }

  /** `float(str(n)) == n` for every integer n. */
  lemma ParseFloatOfIntToString(n: int)
    ensures ParseFloat(IntToString(n)) == Some(Finite(n < 0, if n < 0 then -n else n, 0))
    ensures ParseFloat(IntToString(n)).value.Value() == n as real
  {
    if n < 0 {
      var m: nat := -n;
      var s := "-" + NatToString(m);
      assert IntToString(n) == s;
      ParseFloatOfNegatedNatToString(m);
      assert ParseFloat(s) == Some(Finite(true, m, 0));
      WholeValue(true, m);
    } else {
      var s := NatToString(n);
      assert IntToString(n) == s;
      ParseFloatOfNatToString(n);
      assert ParseFloat(s) == Some(Finite(false, n, 0));
      WholeValue(false, n);
    }
  }
}
