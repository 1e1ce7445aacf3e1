/**
 * The price parse of the supervisor (decimal.NewFromString from
 * shopspring/decimal), for the plain decimal notation: an optional sign,
 * digits with at most one decimal point, and at least one digit. Values are
 * exact rationals (`real`), as the library's arbitrary-precision decimals are.
 */
module Decimal {
  import opened Wrappers

  predicate IsDigit(c: char) { '0' <= c <= '9' }

  predicate AllDigits(s: string) { forall i :: 0 <= i < |s| ==> IsDigit(s[i]) }

  /** The value of a digit string, most significant digit first. */
  function DigitsValue(s: string): nat
    requires AllDigits(s)
  {
    if s == [] then 0 else 10 * DigitsValue(s[..|s| - 1]) + (s[|s| - 1] as int - '0' as int)
  }

  function Pow10(n: nat): (p: nat)
    ensures p >= 1
  {
    if n == 0 then 1 else 10 * Pow10(n - 1)
  }

  /** The position of the first '.' in s, or |s| when there is none. */
  function DotIndex(s: string): (k: nat)
    ensures k <= |s|
    ensures forall j :: 0 <= j < k ==> s[j] != '.'
    ensures k < |s| ==> s[k] == '.'
  {
    if s == [] || s[0] == '.' then 0 else 1 + DotIndex(s[1..])
  }

  /** The value of the literal `whole.frac`. */
  function LiteralValue(whole: string, frac: string): real
    requires AllDigits(whole) && AllDigits(frac)
  {
    DigitsValue(whole) as real + DigitsValue(frac) as real / Pow10(|frac|) as real
  }

  /** An unsigned decimal: digits, optionally a point and more digits. */
  function Unsigned(s: string): Option<real>
  {
    var k := DotIndex(s);
    var whole := s[..k];
    var frac := if k < |s| then s[k + 1..] else "";
    if |whole| + |frac| > 0 && AllDigits(whole) && AllDigits(frac) then
      Some(LiteralValue(whole, frac))
    else
      None
  }

  /**
   * decimal.NewFromString: Some(value), or None where the library reports an
   * error. The empty string, which a closed result channel yields, does not
   * parse.
   */
  function Parse(s: string): (r: Option<real>)
    ensures r.Some? ==> |s| > 0
  {
    if |s| > 0 && (s[0] == '-' || s[0] == '+') then
      match Unsigned(s[1..])
      case None => None
      case Some(v) => Some(if s[0] == '-' then -v else v)
    else
      Unsigned(s)
  }

  /** DotIndex finds the first point. */
  lemma DotIndexAt(s: string, k: nat)
    requires k <= |s| && (k < |s| ==> s[k] == '.')
    requires forall j :: 0 <= j < k ==> s[j] != '.'
    ensures DotIndex(s) == k
  {
  }

  lemma UnsignedDecimal(whole: string, frac: string)
    requires AllDigits(whole) && AllDigits(frac) && |whole| + |frac| > 0
    ensures Unsigned(whole + "." + frac)
         == Some(LiteralValue(whole, frac))
  {
    var s := whole + "." + frac;
    assert forall j :: 0 <= j < |whole| ==> s[j] == whole[j];
    DotIndexAt(s, |whole|);
    assert s[..|whole|] == whole && s[|whole| + 1..] == frac;
  }

  /** A string that does not start with a sign is parsed as unsigned. */
  lemma ParseUnsignedStart(s: string)
    requires |s| > 0 ==> s[0] != '-' && s[0] != '+'
    ensures Parse(s) == Unsigned(s)
  {
  }

  /** A leading minus negates the unsigned value after it. */
  lemma ParseMinus(s: string)
    ensures Unsigned(s).None? ==> Parse("-" + s) == None
    ensures Unsigned(s).Some? ==> Parse("-" + s) == Some(-Unsigned(s).value)
  {
    var t := "-" + s;
    assert t[0] == '-' && t[1..] == s;
  }

  /** A leading plus keeps the unsigned value after it. */
  lemma ParsePlus(s: string)
    ensures Parse("+" + s) == Unsigned(s)
  {
    var t := "+" + s;
    assert t[0] == '+' && t[1..] == s;
  }

  /** What a decimal literal `whole.frac` means: whole + frac / 10^|frac|. */
  lemma ParseDecimal(whole: string, frac: string)
    requires AllDigits(whole) && AllDigits(frac) && |whole| + |frac| > 0
    ensures Parse(whole + "." + frac) == Some(LiteralValue(whole, frac))
  {
    var s := whole + "." + frac;
    UnsignedDecimal(whole, frac);
    if |whole| > 0 {
      assert s[0] == whole[0] && IsDigit(whole[0]);
    }
    ParseUnsignedStart(s);
  }

  /** A digit string without a point is an integer. */
  lemma ParseInteger(digits: string)
    requires AllDigits(digits) && |digits| > 0
    ensures Parse(digits) == Some(DigitsValue(digits) as real)
  {
    UnsignedInteger(digits);
    assert IsDigit(digits[0]);
    ParseUnsignedStart(digits);
  }

  lemma UnsignedInteger(digits: string)
    requires AllDigits(digits) && |digits| > 0
    ensures Unsigned(digits) == Some(DigitsValue(digits) as real)
  {
    DotIndexOfDigits(digits);
    UnsignedWithoutPoint(digits);
    IntegerLiteral(digits);
  }

  lemma DotIndexOfDigits(digits: string)
    requires AllDigits(digits)
    ensures DotIndex(digits) == |digits|
  {
    assert forall j :: 0 <= j < |digits| ==> digits[j] != '.' by {
      forall j | 0 <= j < |digits| ensures digits[j] != '.' { assert IsDigit(digits[j]); }
    }
    DotIndexAt(digits, |digits|);
  }

  lemma UnsignedWithoutPoint(digits: string)
    requires AllDigits(digits) && |digits| > 0
    requires DotIndex(digits) == |digits|
    ensures Unsigned(digits) == Some(LiteralValue(digits, ""))
  {
    assert digits[..|digits|] == digits;
  }

  lemma IntegerLiteral(digits: string)
    requires AllDigits(digits)
    ensures LiteralValue(digits, "") == DigitsValue(digits) as real
  {
    assert DigitsValue("") == 0 && Pow10(0) == 1;
  }

  /**
   * A trailing zero after the point does not change the value ("102.50" is
   * 102.5), signed or not.
   */
  lemma TrailingZero(sign: string, whole: string, frac: string)
    requires sign == [] || (|sign| == 1 && (sign[0] == '-' || sign[0] == '+'))
    requires AllDigits(whole) && AllDigits(frac) && |whole| + |frac| > 0
    ensures Parse(sign + whole + "." + frac + "0") == Parse(sign + whole + "." + frac)
  {
    Regroup(sign, whole, frac);
    if sign == [] {
      assert sign + (whole + "." + frac + "0") == whole + "." + frac + "0";
      assert sign + (whole + "." + frac) == whole + "." + frac;
      UnsignedStartTrailingZero(whole, frac);
    } else {
      SignedTrailingZero(sign, whole, frac);
    }
  }

  lemma UnsignedStartTrailingZero(whole: string, frac: string)
    requires AllDigits(whole) && AllDigits(frac) && |whole| + |frac| > 0
    ensures Parse(whole + "." + frac + "0") == Parse(whole + "." + frac)
  {
    ParseDecimal(whole, frac);
    ParseDecimal(whole, frac + "0");
    assert whole + "." + frac + "0" == whole + "." + (frac + "0");
    UnsignedTrailingZero(whole, frac);
  }

  lemma SignedTrailingZero(sign: string, whole: string, frac: string)
    requires |sign| == 1 && (sign[0] == '-' || sign[0] == '+')
    requires AllDigits(whole) && AllDigits(frac) && |whole| + |frac| > 0
    ensures Parse(sign + (whole + "." + frac + "0")) == Parse(sign + (whole + "." + frac))
  {
    var t0, t := whole + "." + frac + "0", whole + "." + frac;
    var v := LiteralValue(whole, frac);
    UnsignedDecimal(whole, frac);
    UnsignedTrailingZero(whole, frac);
    if sign[0] == '-' {
      assert sign == "-";
      ParseMinusValue(t0, v);
      ParseMinusValue(t, v);
    } else {
      assert sign == "+";
      ParsePlusValue(t0, v);
      ParsePlusValue(t, v);
    }
  }

  lemma ParseMinusValue(t: string, v: real)
    requires Unsigned(t) == Some(v)
    ensures Parse("-" + t) == Some(-v)
  {
    ParseMinus(t);
  }

  lemma ParsePlusValue(t: string, v: real)
    requires Unsigned(t) == Some(v)
    ensures Parse("+" + t) == Some(v)
  {
    ParsePlus(t);
  }

  lemma Regroup(sign: string, whole: string, frac: string)
    ensures sign + whole + "." + frac + "0" == sign + (whole + "." + frac + "0")
    ensures sign + whole + "." + frac == sign + (whole + "." + frac)
  {
  }

  /** The unsigned half of TrailingZero. */
  lemma UnsignedTrailingZero(whole: string, frac: string)
    requires AllDigits(whole) && AllDigits(frac) && |whole| + |frac| > 0
    ensures Unsigned(whole + "." + frac + "0") == Unsigned(whole + "." + frac)
  {
    var frac0 := frac + "0";
    assert whole + "." + frac + "0" == whole + "." + frac0;
    assert AllDigits(frac0);
    LiteralTrailingZero(whole, frac);
    UnsignedDecimal(whole, frac);
    UnsignedDecimal(whole, frac0);
  }

  lemma LiteralTrailingZero(whole: string, frac: string)
    requires AllDigits(whole) && AllDigits(frac)
    ensures AllDigits(frac + "0")
    ensures LiteralValue(whole, frac + "0") == LiteralValue(whole, frac)
  {
    var frac0 := frac + "0";
    assert frac0[..|frac0| - 1] == frac;
    assert AllDigits(frac0);
    assert DigitsValue(frac0) == 10 * DigitsValue(frac);
    assert Pow10(|frac0|) == 10 * Pow10(|frac|);
    ScaleFraction(DigitsValue(frac) as real, Pow10(|frac|) as real);
  }

  lemma ScaleFraction(a: real, p: real)
    requires p > 0.0
    ensures (10.0 * a) / (10.0 * p) == a / p
  {
    assert (10.0 * a) / (10.0 * p) * (10.0 * p) == 10.0 * a;
  }

  /** Strings with no digit at all, such as the empty string, do not parse. */
  lemma NoDigitsRejected(s: string)
    requires forall i :: 0 <= i < |s| ==> !IsDigit(s[i])
    ensures Parse(s) == None
  {
    if |s| > 0 && (s[0] == '-' || s[0] == '+') {
      NoDigitsUnsigned(s[1..]);
    } else {
      NoDigitsUnsigned(s);
    }
  }

  lemma NoDigitsUnsigned(s: string)
    requires forall i :: 0 <= i < |s| ==> !IsDigit(s[i])
    ensures Unsigned(s) == None
  {
    var k := DotIndex(s);
    var whole := s[..k];
    var frac := if k < |s| then s[k + 1..] else "";
    if |whole| > 0 {
      assert !IsDigit(whole[0]);
    } else if |frac| > 0 {
      assert frac[0] == s[k + 1];
    }
  }

  /** A string with two decimal points is rejected, signed or not. */
  lemma TwoPointsRejected(a: string, b: string, c: string)
    ensures Parse(a + "." + b + "." + c) == None
  {
    var s := a + "." + b + "." + c;
    assert s[|a|] == '.' && s[|a| + 1 + |b|] == '.';
    if |s| > 0 && (s[0] == '-' || s[0] == '+') {
      assert |a| > 0;
      var t := s[1..];
      assert t[|a| - 1] == '.' && t[|a| + |b|] == '.';
      UnsignedTwoPoints(t, |a| - 1, |a| + |b|);
    } else {
      UnsignedTwoPoints(s, |a|, |a| + 1 + |b|);
    }
  }

  /** An unsigned string with points at i and j, i < j, is rejected. */
  lemma UnsignedTwoPoints(t: string, i: nat, j: nat)
    requires i < j < |t| && t[i] == '.' && t[j] == '.'
    ensures Unsigned(t) == None
  {
    var k := DotIndex(t);
    assert k <= i;
    var frac := t[k + 1..];
    assert frac[j - k - 1] == '.';
  }
}
