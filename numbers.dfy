/** The numeric text conversions the tracker relies on: Python's `float(...)`
    applied to text typed at a prompt or stored in the catalog. The model
    accepts the plain decimal notation `[+|-][digits][.digits]` with at
    least one digit in all, so `.5` and `5.` are numbers. */
module Numbers {
  import opened Wrappers

  predicate IsDigit(c: char) { '0' <= c <= '9' }

  /** A character that may occur in a number the parser accepts. */
  predicate IsNumeral(c: char) { IsDigit(c) || c == '.' || c == '+' || c == '-' }

  predicate AllDigits(s: string) { forall i :: 0 <= i < |s| ==> IsDigit(s[i]) }

  function DigitValue(c: char): (d: nat)
    requires IsDigit(c)
    ensures d < 10
  {
    c as int - '0' as int
  }

  /** The value of a string of decimal digits, most significant first. */
  function DigitsValue(s: string): nat
    requires AllDigits(s)
  {
    if s == [] then 0 else DigitsValue(s[..|s| - 1]) * 10 + DigitValue(s[|s| - 1])
  }

  function Pow10(k: nat): (p: nat)
    ensures p >= 1
  {
    if k == 0 then 1 else 10 * Pow10(k - 1)
  }

  /** The position of the first decimal point, or |s| when there is none. */
  function DotIndex(s: string): (k: nat)
    ensures k <= |s|
    ensures k < |s| ==> s[k] == '.'
    ensures forall j :: 0 <= j < k ==> s[j] != '.'
  {
    if s == [] then 0 else if s[0] == '.' then 0 else 1 + DotIndex(s[1..])
  }

  /** The value of the digits after a decimal point. */
  function FractionValue(f: string): (x: real)
    requires AllDigits(f)
    ensures 0.0 <= x
  {
    DigitsValue(f) as real / Pow10(|f|) as real
  }

  /** An unsigned decimal: digits, optionally a point and more digits. */
  function ParseUnsigned(s: string): (r: Option<real>)
    ensures r.Some? ==> r.value >= 0.0
  {
    var k := DotIndex(s);
    if k == |s| then
      if 0 < |s| && AllDigits(s) then Some(DigitsValue(s) as real) else None
    else
      var whole, frac := s[..k], s[k + 1..];
      if 0 < |whole| + |frac| && AllDigits(whole) && AllDigits(frac) then
        Some(DigitsValue(whole) as real + FractionValue(frac))
      else
        None
  }

  /** `float(s)` for the notation above; None where Python raises ValueError. */
  function ParseNumber(s: string): (r: Option<real>)
    ensures r.Some? && 0 < |s| && s[0] == '-' ==> r.value <= 0.0
    ensures r.Some? && 0 < |s| && s[0] != '-' ==> r.value >= 0.0
  {
    if 0 < |s| && (s[0] == '-' || s[0] == '+') then
      match ParseUnsigned(s[1..])
      case None => None
      case Some(x) => Some(if s[0] == '-' then -x else x)
    else
      ParseUnsigned(s)
  }

  /** Text that is not made of digits, signs and points (empty text, a
      currency symbol, a thousands comma) is rejected. */
  lemma NumberTextIsNumeric(s: string)
    requires ParseNumber(s).Some?
    ensures 0 < |s| && forall i :: 0 <= i < |s| ==> IsNumeral(s[i])
  {
  }

  /** The decimal text of a whole number, as a user types it at the prompt. */
  function NatText(n: nat): (s: string)
    ensures 0 < |s| && AllDigits(s)
  {
    var d := ['0' + (n % 10) as char];
    if n < 10 then d else NatText(n / 10) + d
  }

  lemma {:induction false} NatTextValue(n: nat)
    ensures DigitsValue(NatText(n)) == n
  {
    var s := NatText(n);
    assert s[..|s| - 1] == if n < 10 then [] else NatText(n / 10);
    if n >= 10 {
      NatTextValue(n / 10);
    }
  }

  /** In digits followed by a point, the first point is the one after the digits. */
  lemma {:induction false} PointAfterDigits(a: string, b: string)
    requires AllDigits(a)
    ensures DotIndex(a + "." + b) == |a|
  {
    if a != [] {
      assert (a + "." + b)[1..] == a[1..] + "." + b;
      PointAfterDigits(a[1..], b);
    }
  }

  /** Digits without a point are read as the whole number they spell. */
  lemma UnsignedDigits(s: string)
    requires 0 < |s| && AllDigits(s)
    ensures ParseUnsigned(s) == Some(DigitsValue(s) as real)
  {
  }

  /** A whole number typed without commas, as the prompt asks, is read back
      as exactly that number; its negation with a leading minus likewise. */
  lemma WholeNumberRoundTrip(n: nat)
    ensures ParseNumber(NatText(n)) == Some(n as real)
    ensures ParseNumber("-" + NatText(n)) == Some(-(n as real))
  {
    var s := NatText(n);
    NatTextValue(n);
    UnsignedDigits(s);
    assert IsDigit(s[0]);
    assert ParseNumber(s) == ParseUnsigned(s);
    assert ("-" + s)[1..] == s;
  }

  /** Digits, a point and more digits are read as the whole part plus the
      value of the fraction. */
  lemma UnsignedDecimal(a: string, f: string)
    requires 0 < |a| && AllDigits(a) && AllDigits(f)
    ensures ParseUnsigned(a + "." + f)
      == Some(DigitsValue(a) as real + FractionValue(f))
  {
    var s := a + "." + f;
    var k := DotIndex(s);
    assert k == |a| by {
      PointAfterDigits(a, f);
    }
    assert s[..k] == a;
    assert s[k + 1..] == f;
  }

  /** A decimal with a whole part and a fraction, as stored by an edit of a
      price (`12.50`, `9.99`), is read as the whole part plus the value of
      the fraction. */
  lemma DecimalValue(w: nat, f: string)
    requires AllDigits(f)
    ensures ParseNumber(NatText(w) + "." + f) == Some(w as real + FractionValue(f))
  {
    var a := NatText(w);
    var s := a + "." + f;
    assert ParseUnsigned(s) == Some(w as real + FractionValue(f)) by {
      NatTextValue(w);
      UnsignedDecimal(a, f);
    }
    assert s[0] == a[0] && IsDigit(a[0]);
  }

  /** The same decimal after a minus sign is read as its negation. */
  lemma NegativeDecimalValue(w: nat, f: string)
    requires AllDigits(f)
    ensures ParseNumber("-" + NatText(w) + "." + f) == Some(-(w as real + FractionValue(f)))
  {
    var s := NatText(w) + "." + f;
    var t := "-" + NatText(w) + "." + f;
    assert ParseUnsigned(s) == Some(w as real + FractionValue(f)) by {
      DecimalValue(w, f);
      assert s[0] == NatText(w)[0] && IsDigit(s[0]);
    }
    assert t[0] == '-' && t[1..] == s;
  }
}
