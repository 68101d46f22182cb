/**
 * Decimal digit strings as the Rust standard library writes and reads them:
 * `usize::to_string`, the fixed-point formatter `format!("{:.*}", digits, x)`,
 * the shortest `Display` of a float, `str::replace(".", "")` and `i64::from_str`.
 *
 * A coordinate is an exact fixed-point decimal: an `int` number of units of
 * 10^-prec. `prec` is the number of fractional digits the value carries.
 */
module Decimal {
  import opened Outcomes

  const I64Min: int := -0x8000_0000_0000_0000
  const I64Max: int := 0x7fff_ffff_ffff_ffff

  predicate InI64(v: int) { I64Min <= v <= I64Max }

  function Abs(v: int): nat { if v < 0 then -v else v }

  function Pow10(n: nat): (r: nat)
    ensures r >= 1
  {
    if n == 0 then 1 else 10 * Pow10(n - 1)
  }

  lemma {:induction false} Pow10Add(a: nat, b: nat)
    ensures Pow10(a + b) == Pow10(a) * Pow10(b)
  {
    if a > 0 {
      Pow10Add(a - 1, b);
      assert Pow10(a + b) == 10 * Pow10(a - 1 + b);
      assert 10 * (Pow10(a - 1) * Pow10(b)) == (10 * Pow10(a - 1)) * Pow10(b);
    }
  }

  // ---------------------------------------------------------------------------
  // Digit strings

  predicate IsDigit(c: char) { '0' <= c <= '9' }

  predicate AllDigits(s: string) { forall i :: 0 <= i < |s| ==> IsDigit(s[i]) }

  function DigitChar(d: nat): (c: char)
    requires d < 10
    ensures IsDigit(c)
  {
    (48 + d) as char
  }

  function DigitValue(c: char): (d: nat)
    requires IsDigit(c)
    ensures d < 10
  {
    c as int - 48
  }

  /** The number a string of decimal digits spells, most significant digit first. */
  function DigitsValue(s: string): nat
    requires AllDigits(s)
  {
    if s == [] then 0 else 10 * DigitsValue(s[..|s| - 1]) + DigitValue(s[|s| - 1])
  }

  lemma ShiftDigit(x: nat, y: nat, z: nat, d: nat)
    ensures 10 * (x * y + z) + d == x * (10 * y) + (10 * z + d)
  {
  }

  lemma NegateBoth(r: int, a: int, x: int, b: int)
    requires r * a == x * b
    ensures (-r) * a == (-x) * b
  {
  }

  lemma MulAssoc(a: int, b: int, c: int)
    ensures (a * b) * c == a * (b * c)
  {
  }

  lemma {:induction false} DigitsValueAppend(a: string, b: string)
    requires AllDigits(a) && AllDigits(b)
    ensures AllDigits(a + b)
    ensures DigitsValue(a + b) == DigitsValue(a) * Pow10(|b|) + DigitsValue(b)
  {
    if b == [] {
      assert a + b == a;
    } else {
      var b' := b[..|b| - 1];
      DigitsValueAppend(a, b');
      assert (a + b)[..|a + b| - 1] == a + b';
      assert (a + b)[|a + b| - 1] == b[|b| - 1];
      var x, y, z, d := DigitsValue(a), Pow10(|b'|), DigitsValue(b'), DigitValue(b[|b| - 1]);
      assert DigitsValue(a + b) == 10 * (x * y + z) + d;
      assert DigitsValue(b) == 10 * z + d;
      assert Pow10(|b|) == 10 * y;
      ShiftDigit(x, y, z, d);
    }
  }

  function Zeros(k: nat): (s: string)
    ensures |s| == k && AllDigits(s)
  {
    seq(k, _ => '0')
  }

  lemma {:induction false} ZerosValue(k: nat)
    ensures DigitsValue(Zeros(k)) == 0
  {
    if k > 0 {
      assert Zeros(k)[..k - 1] == Zeros(k - 1);
      ZerosValue(k - 1);
    }
  }

  /** `usize::to_string`: the decimal spelling of `n`, without leading zeros. */
  function NatToString(n: nat): (s: string)
    ensures AllDigits(s) && |s| >= 1
  {
    if n < 10 then [DigitChar(n)] else NatToString(n / 10) + [DigitChar(n % 10)]
  }

  /** `NatToString` spells `n` (so reading the string back gives `n`), with no leading zero. */
  lemma {:induction false} NatToStringValue(n: nat)
    ensures DigitsValue(NatToString(n)) == n
    ensures NatToString(n)[0] == '0' ==> n == 0
  {
    if n >= 10 {
      NatToStringValue(n / 10);
      var s := NatToString(n);
      assert s[..|s| - 1] == NatToString(n / 10);
    }
  }

  lemma {:induction false} NatToStringLength(n: nat, w: nat)
    requires 1 <= w && n < Pow10(w)
    ensures |NatToString(n)| <= w
  {
    if n >= 10 {
      assert Pow10(1) == 10;
      NatToStringLength(n / 10, w - 1);
    }
  }

  /** Left-pads a digit string with zeros up to width `w`. */
  function PadLeft(s: string, w: nat): (r: string)
    requires AllDigits(s)
    ensures AllDigits(r) && |r| == if |s| >= w then |s| else w
  {
    if |s| >= w then s else Zeros(w - |s|) + s
  }

  lemma PadLeftValue(s: string, w: nat)
    requires AllDigits(s)
    ensures DigitsValue(PadLeft(s, w)) == DigitsValue(s)
  {
    if |s| < w {
      var z := Zeros(w - |s|);
      assert PadLeft(s, w) == z + s;
      ZerosValue(w - |s|);
      DigitsValueAppend(z, s);
      assert DigitsValue(z) * Pow10(|s|) == 0;
    }
  }

  /** The `w`-digit zero-padded spelling of a number below 10^w (w >= 1). */
  lemma PaddedDigits(n: nat, w: nat)
    requires 1 <= w && n < Pow10(w)
    ensures |PadLeft(NatToString(n), w)| == w
    ensures DigitsValue(PadLeft(NatToString(n), w)) == n
  {
    NatToStringLength(n, w);
    PadLeftValue(NatToString(n), w);
    NatToStringValue(n);
  }

  /** Drops the trailing zeros of a digit string. */
  function TrimZeros(s: string): (t: string)
    requires AllDigits(s)
    ensures AllDigits(t) && |t| <= |s| && t == s[..|t|]
    ensures t != [] ==> t[|t| - 1] != '0'
  {
    if s != [] && s[|s| - 1] == '0' then TrimZeros(s[..|s| - 1]) else s
  }

  lemma MulShift(a: int, b: int)
    ensures a * (10 * b) == 10 * (a * b)
  {
  }

  lemma {:induction false} TrimZerosValue(s: string)
    requires AllDigits(s)
    ensures DigitsValue(TrimZeros(s)) * Pow10(|s| - |TrimZeros(s)|) == DigitsValue(s)
  {
    if s != [] && s[|s| - 1] == '0' {
      var s' := s[..|s| - 1];
      TrimZerosValue(s');
      var t := TrimZeros(s');
      assert TrimZeros(s) == t;
      var a, b := DigitsValue(t), Pow10(|s'| - |t|);
      assert Pow10(|s| - |t|) == 10 * b;
      assert DigitsValue(s) == 10 * DigitsValue(s');
      MulShift(a, b);
    }
  }

  // ---------------------------------------------------------------------------
  // Fixed-point formatting, `format!("{:.*}", digits, x)`

  /** The integer part of `m` units of 10^-k, that is `m / 10^k`. */
  function Whole(m: nat, k: nat): nat
  {
    if k == 0 then m else Whole(m / 10, k - 1)
  }

  /** The fractional part of `m` units of 10^-k, that is `m % 10^k`. */
  function Fraction(m: nat, k: nat): (f: nat)
    ensures f < Pow10(k)
  {
    if k == 0 then 0 else 10 * Fraction(m / 10, k - 1) + m % 10
  }

  lemma {:induction false} WholeFraction(m: nat, k: nat)
    ensures m == Whole(m, k) * Pow10(k) + Fraction(m, k)
  {
    if k > 0 {
      WholeFraction(m / 10, k - 1);
      ShiftDigit(Whole(m / 10, k - 1), Pow10(k - 1), Fraction(m / 10, k - 1), m % 10);
    }
  }

  /** `m / 10^k` rounded to the nearest integer, ties going to the even neighbour. */
  function RoundHalfEven(m: nat, k: nat): nat
  {
    var q, r, u := Whole(m, k), Fraction(m, k), Pow10(k);
    if 2 * r < u then q
    else if 2 * r > u then q + 1
    else if q % 2 == 0 then q else q + 1
  }

  /**
   * The magnitude `m` (units of 10^-prec) expressed in units of 10^-digits:
   * exact when digits >= prec, otherwise rounded to the nearest unit with
   * ties going to the even neighbour, as Rust's exact-precision formatter does.
   */
  function Rescale(m: nat, prec: nat, digits: nat): nat
  {
    if digits >= prec then m * Pow10(digits - prec) else RoundHalfEven(m, prec - digits)
  }

  /** A signed value at `digits` fractional digits: the rounded magnitude, with the sign of `v`. */
  function Rounded(v: int, prec: nat, digits: nat): int
  {
    if v < 0 then -(Rescale(-v, prec, digits) as int) else Rescale(v, prec, digits)
  }

  function SignPrefix(negative: bool): string { if negative then "-" else "" }

  /**
   * `format!("{:.*}", digits, v)` for the exact decimal `v` (units of 10^-prec):
   * a '-' when `v` is negative (kept even when the rounded magnitude is zero),
   * the integer digits, and for digits > 0 a '.' and exactly `digits`
   * fractional digits.
   */
  function FormatFixed(v: int, prec: nat, digits: nat): string
  {
    FormatMagnitude(v < 0, Rescale(Abs(v), prec, digits), digits)
  }

  /** The sign, then `m` units of 10^-digits written with `digits` fractional digits. */
  function FormatMagnitude(negative: bool, m: nat, digits: nat): string
  {
    SignPrefix(negative) + NatToString(Whole(m, digits))
      + (if digits == 0 then "" else "." + FractionDigits(m, digits))
  }

  /** The `digits` fractional digits of `m` units of 10^-digits, zero-padded on the left. */
  function FractionDigits(m: nat, digits: nat): string
  {
    PadLeft(NatToString(Fraction(m, digits)), digits)
  }

  /** What `FormatFixed` writes for the magnitude `m` once its point is deleted. */
  function PointlessDigits(m: nat, digits: nat): string
  {
    NatToString(Whole(m, digits)) + (if digits == 0 then "" else FractionDigits(m, digits))
  }

  lemma PointlessDigitsValue(m: nat, digits: nat)
    ensures AllDigits(PointlessDigits(m, digits)) && |PointlessDigits(m, digits)| >= 1
    ensures DigitsValue(PointlessDigits(m, digits)) == m
  {
    var w, f := Whole(m, digits), Fraction(m, digits);
    var intPart := NatToString(w);
    var tail := if digits == 0 then "" else FractionDigits(m, digits);
    NatToStringValue(w);
    DigitsValueAppend(intPart, tail);
    if digits != 0 {
      PaddedDigits(f, digits);
    }
    WholeFraction(m, digits);
    assert DigitsValue(tail) == f && Pow10(|tail|) == Pow10(digits);
    assert DigitsValue(intPart + tail) == w * Pow10(digits) + f;
  }

  lemma FormatWithoutPoint(negative: bool, m: nat, digits: nat)
    ensures RemoveDots(FormatMagnitude(negative, m, digits)) == SignPrefix(negative) + PointlessDigits(m, digits)
  {
    var sign, intPart := SignPrefix(negative), NatToString(Whole(m, digits));
    if digits == 0 {
      RemoveDotsDigits(sign, intPart);
      assert FormatMagnitude(negative, m, digits) == sign + intPart;
      assert PointlessDigits(m, digits) == intPart;
    } else {
      var tail := FractionDigits(m, digits);
      PointRemoved(sign, intPart, tail);
      assert FormatMagnitude(negative, m, digits) == (sign + intPart) + ("." + tail);
      assert PointlessDigits(m, digits) == intPart + tail;
    }
  }

  /** Deleting the point between two digit strings joins them. */
  lemma PointRemoved(sign: string, intPart: string, tail: string)
    requires sign == "" || sign == "-"
    requires AllDigits(intPart) && AllDigits(tail)
    ensures RemoveDots((sign + intPart) + ("." + tail)) == sign + (intPart + tail)
  {
    RemoveDotsDigits(sign, intPart);
    RemoveDotsPoint(tail);
    RemoveDotsAppend(sign + intPart, "." + tail);
    assert (sign + intPart) + tail == sign + (intPart + tail);
  }

  /** A sign followed by digits has no point to delete. */
  lemma RemoveDotsDigits(sign: string, s: string)
    requires sign == "" || sign == "-"
    requires AllDigits(s)
    ensures RemoveDots(sign + s) == sign + s
  {
    forall i | 0 <= i < |sign + s|
      ensures (sign + s)[i] != '.'
    {
      if i >= |sign| {
        assert (sign + s)[i] == s[i - |sign|];
        assert IsDigit(s[i - |sign|]);
      }
    }
    RemoveDotsNoDot(sign + s);
  }

  /** Deleting the point in front of a digit string leaves the digits. */
  lemma RemoveDotsPoint(s: string)
    requires AllDigits(s)
    ensures RemoveDots("." + s) == s
  {
    assert ("." + s)[1..] == s;
    RemoveDotsDigits("", s);
    assert "" + s == s;
  }

  /** `s.replace(".", "")`. */
  function RemoveDots(s: string): string
  {
    if s == [] then [] else (if s[0] == '.' then "" else [s[0]]) + RemoveDots(s[1..])
  }

  lemma {:induction false} RemoveDotsAppend(a: string, b: string)
    ensures RemoveDots(a + b) == RemoveDots(a) + RemoveDots(b)
  {
    if a != [] {
      assert (a + b)[1..] == a[1..] + b;
      RemoveDotsAppend(a[1..], b);
    } else {
      assert a + b == b;
    }
  }

  lemma {:induction false} RemoveDotsNoDot(s: string)
    requires '.' !in s
    ensures RemoveDots(s) == s
  {
    if s != [] {
      RemoveDotsNoDot(s[1..]);
    }
  }

  /**
   * `i64::from_str`: an optional '+' or '-', then one or more decimal digits,
   * and a value inside the i64 range; `None` for anything else.
   */
  function ParseI64(s: string): (r: Option<int>)
    ensures r.Some? ==> InI64(r.value)
  {
    var negative := |s| > 0 && s[0] == '-';
    var body := if |s| > 0 && (s[0] == '-' || s[0] == '+') then s[1..] else s;
    if body == [] || !AllDigits(body) then None
    else
      var v: int := if negative then -(DigitsValue(body) as int) else DigitsValue(body);
      if InI64(v) then Some(v) else None
  }

  /** The rounded value when it fits an i64 (the value a successful parse yields). */
  function RoundedI64(v: int, prec: nat, digits: nat): Option<int>
  {
    if InI64(Rounded(v, prec, digits)) then Some(Rounded(v, prec, digits)) else None
  }

  /**
   * The integer write_cityjson emits for one coordinate: format it with
   * `digits` fractional digits, delete the point, parse the rest as i64.
   * `None` is the parse failure the source unwraps (a panic).
   */
  function Quantize(v: int, prec: nat, digits: nat): Option<int>
  {
    ParseI64(RemoveDots(FormatFixed(v, prec, digits)))
  }

  /**
   * Deleting the point from the formatted string and parsing it yields the
   * signed rounded value, that is ±(integer part * 10^digits + fraction),
   * with the sign kept across the deletion; it fails only outside the i64 range.
   */
  lemma QuantizeIsRounded(v: int, prec: nat, digits: nat)
    ensures Quantize(v, prec, digits) == RoundedI64(v, prec, digits)
  {
    var m := Rescale(Abs(v), prec, digits);
    FormatWithoutPoint(v < 0, m, digits);
    PointlessDigitsValue(m, digits);
    ParseSigned(v < 0, PointlessDigits(m, digits));
  }

  /** `i64::from_str` on a sign and a digit string reads the signed number the digits spell. */
  lemma ParseSigned(negative: bool, body: string)
    requires AllDigits(body) && body != []
    ensures var x: int := if negative then -(DigitsValue(body) as int) else DigitsValue(body);
      ParseI64(SignPrefix(negative) + body) == if InI64(x) then Some(x) else None
  {
    var t := SignPrefix(negative) + body;
    if negative {
      assert t[0] == '-' && t[1..] == body;
    } else {
      assert t == body && IsDigit(t[0]);
    }
  }

  // ---------------------------------------------------------------------------
  // Shortest display, `f64::to_string` on an exact decimal

  /**
   * The shortest spelling of the decimal `v` (units of 10^-prec): sign,
   * integer digits, and the fractional digits without trailing zeros, the
   * point omitted when no fractional digit remains ("3" for 3.0, "0.5").
   */
  function DisplayDecimal(v: int, prec: nat): string
  {
    SignPrefix(v < 0) + UnsignedDisplay(Abs(v), prec)
  }

  function UnsignedDisplay(m: nat, prec: nat): string
  {
    JoinPoint(NatToString(Whole(m, prec)), TrimZeros(FractionDigits(m, prec)))
  }

  /** The integer digits, then a point and the fraction digits when there are any. */
  function JoinPoint(intPart: string, frac: string): string
  {
    intPart + (if frac == [] then "" else "." + frac)
  }

  /** Index of the first '.' in `s`, or |s| when there is none. */
  function DotIndex(s: string): (k: nat)
    ensures k <= |s| && '.' !in s[..k] && (k < |s| ==> s[k] == '.')
  {
    if s == [] || s[0] == '.' then 0
    else
      var k := 1 + DotIndex(s[1..]);
      assert s[..k] == [s[0]] + s[1..][..k - 1];
      k
  }

  /** Reads "ddd" or "ddd.fff" (at most `prec` digits f) as units of 10^-prec. */
  function ParseUnsignedDecimal(s: string, prec: nat): Option<nat>
  {
    var k := DotIndex(s);
    var intPart, frac := s[..k], if k < |s| then s[k + 1..] else "";
    if intPart != [] && AllDigits(intPart) && AllDigits(frac) && |frac| <= prec
       && (k < |s| ==> frac != [])
    then Some(DigitsValue(intPart) * Pow10(prec) + DigitsValue(frac) * Pow10(prec - |frac|))
    else None
  }

  /** Reads an optionally '-'-signed decimal as units of 10^-prec. */
  function ParseDecimal(s: string, prec: nat): Option<int>
  {
    if |s| > 0 && s[0] == '-' then
      match ParseUnsignedDecimal(s[1..], prec)
      case Some(m) => Some(-(m as int))
      case None => None
    else
      match ParseUnsignedDecimal(s, prec)
      case Some(m) => Some(m)
      case None => None
  }

  /** The displayed decimal reads back as the same value: no digit is lost. */
  lemma DisplayRoundTrip(v: int, prec: nat)
    ensures ParseDecimal(DisplayDecimal(v, prec), prec) == Some(v)
  {
    UnsignedDisplayRoundTrip(Abs(v), prec);
    ParseSignedDecimal(v < 0, UnsignedDisplay(Abs(v), prec), prec, Abs(v));
  }

  /** A sign in front of an unsigned decimal that starts with a digit negates its value. */
  lemma ParseSignedDecimal(negative: bool, u: string, prec: nat, m: nat)
    requires u != [] && IsDigit(u[0]) && ParseUnsignedDecimal(u, prec) == Some(m)
    ensures ParseDecimal(SignPrefix(negative) + u, prec) == Some(if negative then -(m as int) else m)
  {
    if negative {
      assert (SignPrefix(negative) + u)[1..] == u;
    } else {
      assert SignPrefix(negative) + u == u;
    }
  }

  /** A sign, digits, and a point before more digits: no other character. */
  lemma DisplayChars(negative: bool, intPart: string, frac: string)
    requires AllDigits(intPart) && AllDigits(frac)
    ensures var d := SignPrefix(negative) + JoinPoint(intPart, frac);
      forall i :: 0 <= i < |d| ==> d[i] == '-' || d[i] == '.' || IsDigit(d[i])
  {
    var tail := if frac == [] then "" else "." + frac;
    assert forall i :: 0 <= i < |tail| ==> tail[i] == '.' || IsDigit(tail[i]);
    assert JoinPoint(intPart, frac) == intPart + tail;
  }

  /** A displayed decimal is made of a sign, digits and a point only; in particular it has no comma. */
  lemma DisplayHasNoComma(v: int, prec: nat)
    ensures forall c :: c in DisplayDecimal(v, prec) ==> c == '-' || c == '.' || IsDigit(c)
    ensures ',' !in DisplayDecimal(v, prec)
  {
    DisplayChars(v < 0, NatToString(Whole(Abs(v), prec)), TrimZeros(FractionDigits(Abs(v), prec)));
  }

  lemma UnsignedDisplayRoundTrip(m: nat, prec: nat)
    ensures IsDigit(UnsignedDisplay(m, prec)[0])
    ensures ParseUnsignedDecimal(UnsignedDisplay(m, prec), prec) == Some(m)
  {
    var intPart, frac := NatToString(Whole(m, prec)), TrimZeros(FractionDigits(m, prec));
    DisplayValue(m, prec);
    DisplayParts(intPart, frac, prec, m, DigitsValue(intPart) * Pow10(prec));
  }

  /** The integer digits and the trimmed fraction digits of the display add up to `m`. */
  lemma DisplayValue(m: nat, prec: nat)
    ensures var frac := TrimZeros(FractionDigits(m, prec));
      AllDigits(frac) && |frac| <= prec
      && m == DigitsValue(NatToString(Whole(m, prec))) * Pow10(prec) + DigitsValue(frac) * Pow10(prec - |frac|)
  {
    NatToStringValue(Whole(m, prec));
    WholeFraction(m, prec);
    TrimmedFraction(m, prec);
  }

  /** Reading back an integer part and a (possibly empty) fraction part. */
  lemma DisplayParts(intPart: string, frac: string, prec: nat, m: nat, whole: int)
    requires AllDigits(intPart) && intPart != [] && AllDigits(frac) && |frac| <= prec
    requires whole == DigitsValue(intPart) * Pow10(prec)
    requires m == whole + DigitsValue(frac) * Pow10(prec - |frac|)
    ensures var u := JoinPoint(intPart, frac);
      u != [] && IsDigit(u[0]) && ParseUnsignedDecimal(u, prec) == Some(m)
  {
    if frac == [] {
      assert intPart + "" == intPart;
      ParseWholeNumber(intPart, prec);
    } else {
      assert intPart + ("." + frac) == intPart + "." + frac;
      assert (intPart + "." + frac)[0] == intPart[0];
      ParsePointNumber(intPart, frac, prec);
    }
  }

  /** With no fractional digits to show, the display has no fraction part. */
  lemma NoFraction(m: nat)
    ensures TrimZeros(FractionDigits(m, 0)) == [] && Fraction(m, 0) == 0
  {
    assert NatToString(0) == "0";
    assert FractionDigits(m, 0) == "0";
    assert "0"[..0] == [];
  }

  /** The trimmed fractional digits of the display still denote `Fraction(m, prec)`. */
  lemma TrimmedFraction(m: nat, prec: nat)
    ensures var frac := TrimZeros(FractionDigits(m, prec));
      AllDigits(frac) && |frac| <= prec
      && DigitsValue(frac) * Pow10(prec - |frac|) == Fraction(m, prec)
  {
    if prec == 0 {
      NoFraction(m);
    } else {
      PaddedDigits(Fraction(m, prec), prec);
      TrimZerosValue(FractionDigits(m, prec));
    }
  }

  lemma ParseWholeNumber(s: string, prec: nat)
    requires AllDigits(s) && s != []
    ensures ParseUnsignedDecimal(s, prec) == Some(DigitsValue(s) * Pow10(prec))
  {
    assert s[..|s|] == s;
  }

  lemma ParsePointNumber(a: string, b: string, prec: nat)
    requires AllDigits(a) && a != [] && AllDigits(b) && b != [] && |b| <= prec
    ensures ParseUnsignedDecimal(a + "." + b, prec)
         == Some(DigitsValue(a) * Pow10(prec) + DigitsValue(b) * Pow10(prec - |b|))
  {
    var u := a + "." + b;
    assert u[..|a|] == a && u[|a|] == '.';
    assert DotIndex(u) == |a|;
    assert u[|a| + 1..] == b;
  }

  // ---------------------------------------------------------------------------
  // What the rounding means

  lemma RescaleExact(m: nat, prec: nat, digits: nat)
    requires digits >= prec
    ensures Rescale(m, prec, digits) * Pow10(prec) == m * Pow10(digits)
  {
    var a, b := Pow10(digits - prec), Pow10(prec);
    Pow10Add(digits - prec, prec);
    assert Rescale(m, prec, digits) == m * a;
    MulAssoc(m, a, b);
  }

  /** Rounding picks the nearest multiple of the unit, and the even one on a tie. */
  lemma RoundHalfEvenNearest(m: nat, k: nat)
    ensures var q, u := RoundHalfEven(m, k), Pow10(k);
      2 * Abs(q * u - m) <= u && (2 * Abs(q * u - m) == u ==> q % 2 == 0)
  {
    WholeFraction(m, k);
    HalfEvenChoice(m, Whole(m, k), Fraction(m, k), Pow10(k), RoundHalfEven(m, k));
  }

  lemma HalfEvenChoice(m: int, q: int, r: int, u: int, res: int)
    requires m == q * u + r && 0 <= r < u
    requires res == if 2 * r < u then q else if 2 * r > u then q + 1 else if q % 2 == 0 then q else q + 1
    ensures 2 * Abs(res * u - m) <= u && (2 * Abs(res * u - m) == u ==> res % 2 == 0)
  {
    MulSucc(q, u);
    RoundingError(m, q * u, r, u, res * u);
  }

  lemma MulSucc(q: int, u: int)
    ensures (q + 1) * u == q * u + u
  {
  }

  lemma RoundingError(m: int, p: int, r: int, u: int, t: int)
    requires m == p + r && 0 <= r < u
    ensures t == p ==> Abs(t - m) == r
    ensures t == p + u ==> Abs(t - m) == u - r
  {
  }

  /** With at least as many digits as the coordinate carries, quantization is exact. */
  lemma RoundedExact(v: int, prec: nat, digits: nat)
    requires digits >= prec
    ensures Rounded(v, prec, digits) * Pow10(prec) == v * Pow10(digits)
  {
    RescaleExact(Abs(v), prec, digits);
    if v < 0 {
      NegateBoth(Rescale(-v, prec, digits), Pow10(prec), -v, Pow10(digits));
    }
  }

  /** With fewer digits, the quantized value is within half a unit of the coordinate. */
  lemma RoundedNearest(v: int, prec: nat, digits: nat)
    requires digits < prec
    ensures 2 * Abs(Rounded(v, prec, digits) * Pow10(prec - digits) - v) <= Pow10(prec - digits)
  {
    var u := Pow10(prec - digits);
    RoundHalfEvenNearest(Abs(v), prec - digits);
    if v < 0 {
      NegatedError(Rescale(-v, prec, digits), u, v);
    }
  }

  lemma NegatedError(q: int, u: int, v: int)
    ensures Abs(-q * u - v) == Abs(q * u - (-v))
  {
    assert -q * u == -(q * u);
  }
}
