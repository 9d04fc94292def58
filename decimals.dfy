/** Exact decimal numbers, the plain decimal text that Python's str() prints
    for them (scientific notation aside), and the decimal literal grammar
    that float() and Decimal() read. */
module Decimals {

  datatype Option<+T> = None | Some(value: T)

  function Pow10(n: nat): (r: nat)
    ensures r >= 1
  {
    if n == 0 then 1 else 10 * Pow10(n - 1)
  }

  function Abs(x: int): nat
  {
    if x < 0 then -x else x
  }

  /** The number digits * 10^(-scale). A Python Decimal read from plain
      decimal text has this shape, and so does the shortest repr of a finite
      float, which is how floats are represented throughout this model. */
  datatype Dec = Dec(digits: int, scale: nat)

  /** Numeric equality, the way Python's == compares Decimals (1.50 == 1.5). */
  predicate SameValue(a: Dec, b: Dec)
  {
    a.digits * Pow10(b.scale) == b.digits * Pow10(a.scale)
  }

  lemma SameValueTransitive(a: Dec, b: Dec, c: Dec)
    requires SameValue(a, b) && SameValue(b, c)
    ensures SameValue(a, c)
  {
    CrossMultiply(a.digits, b.digits, c.digits, Pow10(a.scale), Pow10(b.scale), Pow10(c.scale));
  }

  lemma CrossMultiply(x: int, y: int, z: int, px: int, py: int, pz: int)
    requires py > 0 && x * py == y * px && y * pz == z * py
    ensures x * pz == z * px
  {
    assert (x * pz) * py == (x * py) * pz;
    assert (x * py) * pz == (y * px) * pz;
    assert (y * px) * pz == (y * pz) * px;
    assert (y * pz) * px == (z * py) * px;
    assert (z * py) * px == (z * px) * py;
    CancelPositive(x * pz, z * px, py);
  }

  /** The number has no fractional part. */
  predicate IsIntegral(d: Dec)
  {
    d.digits % Pow10(d.scale) == 0
  }

  /** The exact product; scales add up. */
  function Mul(a: Dec, b: Dec): Dec
  {
    Dec(a.digits * b.digits, a.scale + b.scale)
  }

  // ---------------------------------------------------------------------
  // Rounding to a number of fractional digits, halves to the even neighbour
  // (Python's round(x, n) and Decimal.to_integral under the default context).
  // ---------------------------------------------------------------------

  /** r is x rounded to `places` fractional digits: a number that already has
      no more digits is returned as it is; otherwise r has exactly `places`
      digits, is at most half a unit of its last place away from x, and a tie
      goes to the even last digit. */
  predicate RoundedHalfEven(r: Dec, x: Dec, places: nat)
  {
    if x.scale <= places then r == x
    else
      var p := Pow10(x.scale - places);
      && r.scale == places
      && 2 * Abs(r.digits * p - x.digits) <= p
      && (2 * Abs(r.digits * p - x.digits) == p ==> r.digits % 2 == 0)
  }

  function Round(x: Dec, places: nat): (r: Dec)
    ensures RoundedHalfEven(r, x, places)
  {
    if x.scale <= places then x
    else Dec(NearestMultiple(x.digits, Pow10(x.scale - places)), places)
  }

  /** The n whose multiple n * p is nearest to a, the even one on a tie. */
  function NearestMultiple(a: int, p: int): (n: int)
    requires p > 0
    ensures 2 * Abs(n * p - a) <= p
    ensures 2 * Abs(n * p - a) == p ==> n % 2 == 0
  {
    var q := a / p;
    var rem := a % p;
    assert a == q * p + rem;
    assert (q + 1) * p == q * p + p;
    if 2 * rem < p then q
    else if 2 * rem > p then q + 1
    else if q % 2 == 0 then q
    else q + 1
  }

  lemma MulAtLeastTwice(a: int, p: int)
    requires a >= 2 && p > 0
    ensures a * p >= 2 * p
  {
  }

  /** The predicate pins the rounded value down: two roundings of the same
      number agree, so Round's contract is a complete specification. */
  lemma {:induction false} RoundedHalfEvenUnique(r1: Dec, r2: Dec, x: Dec, places: nat)
    requires RoundedHalfEven(r1, x, places) && RoundedHalfEven(r2, x, places)
    ensures r1 == r2
  {
    if x.scale > places {
      var p := Pow10(x.scale - places);
      NearestMultipleUnique(r1.digits, r2.digits, x.digits, p);
    }
  }

  /** At most one multiple a * p lies within p/2 of x with even a on a tie. */
  lemma NearestMultipleUnique(a: int, b: int, x: int, p: int)
    requires p > 0
    requires 2 * Abs(a * p - x) <= p && (2 * Abs(a * p - x) == p ==> a % 2 == 0)
    requires 2 * Abs(b * p - x) <= p && (2 * Abs(b * p - x) == p ==> b % 2 == 0)
    ensures a == b
  {
    var k := a - b;
    var e1, e2 := a * p - x, b * p - x;
    assert k * p == e1 - e2;
    CloseMultiples(k, p, e1, e2);
    NeighboursDifferInParity(a, b);
  }

  /** Two errors within p/2 of each other's target differ by at most p, so
      the two multiples are neighbours; if they are not equal, both errors
      are exactly p/2. */
  lemma CloseMultiples(k: int, p: int, e1: int, e2: int)
    requires p > 0 && k * p == e1 - e2
    requires 2 * Abs(e1) <= p && 2 * Abs(e2) <= p
    ensures -1 <= k <= 1
    ensures k != 0 ==> 2 * Abs(e1) == p && 2 * Abs(e2) == p
  {
    if k >= 2 {
      MulAtLeastTwice(k, p);
    } else if k <= -2 {
      MulAtLeastTwice(-k, p);
    }
  }

  lemma NeighboursDifferInParity(a: int, b: int)
    ensures a - b == 1 || a - b == -1 ==> a % 2 != b % 2
  {
  }

  lemma MulAtLeastOnce(a: int, p: int)
    requires a >= 1 && p > 0
    ensures a * p >= p
  {
  }

  lemma MulNonNegative(a: int, b: int)
    requires a >= 0 && b >= 0
    ensures a * b >= 0
  {
  }

  lemma NearestMultipleOfNonNegative(n: int, p: int, a: int)
    requires p > 0 && a >= 0 && 2 * Abs(n * p - a) <= p
    ensures n >= 0
  {
    if n < 0 {
      MulAtLeastOnce(-n, p);
    }
  }

  /** Rounding a non-negative number never gives a negative one. */
  lemma RoundKeepsSign(x: Dec, places: nat)
    requires x.digits >= 0
    ensures Round(x, places).digits >= 0
  {
    if x.scale > places {
      NearestMultipleOfNonNegative(Round(x, places).digits, Pow10(x.scale - places), x.digits);
    }
  }

  // ---------------------------------------------------------------------
  // The digits a float prints
  // ---------------------------------------------------------------------

  /** The shape of a Python float's repr: at least one fractional digit and
      no trailing zero after the first (5.0, 0.89, 10.25, never 0.890). */
  predicate IsFloatForm(d: Dec)
  {
    d.scale >= 1 && (d.scale > 1 ==> d.digits % 10 != 0)
  }

  /** float(d) for an exact decimal d: the same number, written in float form. */
  function FloatForm(d: Dec): (r: Dec)
    ensures IsFloatForm(r) && SameValue(r, d)
    ensures (r.digits >= 0) == (d.digits >= 0)
    decreases d.scale
  {
    if d.scale == 0 then Dec(d.digits * 10, 1)
    else if d.scale > 1 && d.digits % 10 == 0 then
      var r := FloatForm(Dec(d.digits / 10, d.scale - 1));
      DropTrailingZero(r.digits, d.digits / 10, Pow10(d.scale - 1), Pow10(r.scale));
      r
    else d
  }

  lemma DropTrailingZero(a: int, q: int, p: int, pr: int)
    requires a * p == q * pr
    ensures a * (10 * p) == (10 * q) * pr
  {
    assert a * (10 * p) == 10 * (a * p);
    assert (10 * q) * pr == 10 * (q * pr);
  }

  lemma {:induction false} Pow10Add(m: nat, n: nat)
    ensures Pow10(m + n) == Pow10(m) * Pow10(n)
  {
    if n > 0 {
      Pow10Add(m, n - 1);
      assert Pow10(m + n) == 10 * Pow10(m + n - 1);
      assert Pow10(m) * Pow10(n) == 10 * (Pow10(m) * Pow10(n - 1));
    }
  }

  lemma CancelPositive(a: int, b: int, p: int)
    requires p > 0 && a * p == b * p
    ensures a == b
  {
    assert (a - b) * p == 0;
    if a > b { MulAtLeastOnce(a - b, p); }
    if a < b { MulAtLeastOnce(b - a, p); }
  }

  /** Of two equal numbers the one with more fractional digits ends in 0. */
  lemma ScaleGap(a: Dec, b: Dec)
    requires SameValue(a, b)
    ensures a.scale < b.scale ==> b.digits % 10 == 0
  {
    if a.scale < b.scale {
      var gap := b.scale - a.scale;
      Pow10Add(a.scale, gap);
      WiderDigits(a.digits, b.digits, Pow10(a.scale), Pow10(gap));
      assert Pow10(gap) == 10 * Pow10(gap - 1);
      EndsInZero(b.digits, a.digits, Pow10(gap - 1));
    }
  }

  lemma WiderDigits(x: int, y: int, pa: int, g: int)
    requires pa > 0 && x * (pa * g) == y * pa
    ensures y == x * g
  {
    assert (x * g) * pa == y * pa;
    CancelPositive(x * g, y, pa);
  }

  lemma EndsInZero(y: int, x: int, g: int)
    requires y == x * (10 * g)
    ensures y % 10 == 0
  {
    assert y == 10 * (x * g);
  }

  /** The float form is canonical: equal numbers in float form have the same
      digits, so FloatForm(d) is the one repr of d's value. */
  lemma {:induction false} FloatFormUnique(a: Dec, b: Dec)
    requires IsFloatForm(a) && IsFloatForm(b) && SameValue(a, b)
    ensures a == b
  {
    ScaleGap(a, b);
    ScaleGap(b, a);
    assert a.scale == b.scale;
    CancelPositive(a.digits, b.digits, Pow10(a.scale));
  }

  // ---------------------------------------------------------------------
  // Decimal digit strings
  // ---------------------------------------------------------------------

  predicate IsDigit(c: char)
  {
    '0' <= c <= '9'
  }

  predicate AllDigits(s: string)
  {
    forall i :: 0 <= i < |s| ==> IsDigit(s[i])
  }

  function DigitChar(n: nat): (c: char)
    requires n < 10
    ensures IsDigit(c)
  {
    ('0' as int + n) as char
  }

  function DigitValue(c: char): nat
    requires IsDigit(c)
  {
    c as int - '0' as int
  }

  /** The number a string of decimal digits denotes (most significant first). */
  function DigitsValue(s: string): nat
    requires AllDigits(s)
  {
    if s == [] then 0 else DigitsValue(s[..|s| - 1]) * 10 + DigitValue(s[|s| - 1])
  }

  /** The shortest decimal digits of n, as str(n) prints them. */
  function NatDigits(n: nat): (s: string)
    ensures AllDigits(s) && |s| >= 1
  {
    if n < 10 then [DigitChar(n)] else NatDigits(n / 10) + [DigitChar(n % 10)]
  }

  /** n written with exactly `width` digits, leading zeros included. */
  function PaddedDigits(n: nat, width: nat): (s: string)
    ensures AllDigits(s) && |s| == width
  {
    if width == 0 then [] else PaddedDigits(n / 10, width - 1) + [DigitChar(n % 10)]
  }

  lemma DigitsValueSnoc(s: string, c: char)
    requires AllDigits(s) && IsDigit(c)
    ensures AllDigits(s + [c]) && DigitsValue(s + [c]) == DigitsValue(s) * 10 + DigitValue(c)
  {
    assert (s + [c])[..|s|] == s;
  }

  lemma {:induction false} NatDigitsValue(n: nat)
    ensures DigitsValue(NatDigits(n)) == n
  {
    if n < 10 {
      DigitsValueSnoc([], DigitChar(n));
      assert [] + [DigitChar(n)] == [DigitChar(n)];
    } else {
      NatDigitsValue(n / 10);
      DigitsValueSnoc(NatDigits(n / 10), DigitChar(n % 10));
    }
  }

  lemma {:induction false} PaddedDigitsValue(n: nat, width: nat)
    requires n < Pow10(width)
    ensures DigitsValue(PaddedDigits(n, width)) == n
  {
    if width > 0 {
      assert n / 10 < Pow10(width - 1);
      PaddedDigitsValue(n / 10, width - 1);
      DigitsValueSnoc(PaddedDigits(n / 10, width - 1), DigitChar(n % 10));
    }
  }

  // ---------------------------------------------------------------------
  // Text form and decimal literal grammar
  // ---------------------------------------------------------------------

  /** The integer part and the fractional digits of a magnitude. */
  function WholePart(mag: nat, scale: nat): nat
  {
    DivNonNegative(mag, Pow10(scale));
    mag / Pow10(scale)
  }

  lemma DivNonNegative(a: nat, b: nat)
    requires b > 0
    ensures a / b >= 0
  {
  }

  function FracPart(mag: nat, scale: nat): (f: nat)
    ensures f < Pow10(scale)
  {
    mag % Pow10(scale)
  }

  /** str() of a Decimal, in plain notation: a '-' exactly for a negative
      number, the integer part, and, when the scale is positive, '.'
      followed by exactly `scale` digits. DecTextRoundTrip reads it back. */
  function DecText(d: Dec): (t: string)
    ensures |t| >= 1 && (t[0] == '-' <==> d.digits < 0)
    ensures d.digits >= 0 ==> IsDigit(t[0])
  {
    (if d.digits < 0 then "-" else "") + MagnitudeText(Abs(d.digits), d.scale)
  }

  function MagnitudeText(mag: nat, scale: nat): (t: string)
    ensures |t| >= 1 && IsDigit(t[0])
  {
    PartsText(WholePart(mag, scale), FracPart(mag, scale), scale)
  }

  function PartsText(whole: nat, frac: nat, scale: nat): (t: string)
    ensures |t| >= 1 && IsDigit(t[0])
  {
    if scale == 0 then NatDigits(whole) else NatDigits(whole) + "." + PaddedDigits(frac, scale)
  }

  /** Index of the first '.', or |s| when there is none. */
  function DotIndex(s: string): (k: nat)
    ensures k <= |s|
    ensures k < |s| ==> s[k] == '.'
    ensures forall i :: 0 <= i < k ==> s[i] != '.'
  {
    if s == [] then 0 else if s[0] == '.' then 0 else 1 + DotIndex(s[1..])
  }

  /** Digits, optionally followed by '.' and more digits, with at least one
      digit in all ("5", "5.", ".5", "5.25"). */
  function ParseUnsigned(s: string): Option<Dec>
  {
    var k := DotIndex(s);
    ParseParts(s[..k], if k < |s| then s[k + 1..] else "")
  }

  /** The number an integer part and a fractional part spell. */
  function ParseParts(whole: string, frac: string): Option<Dec>
  {
    if AllDigits(whole) && AllDigits(frac) && |whole| + |frac| > 0 then
      Some(Dec(DigitsValue(whole) * Pow10(|frac|) + DigitsValue(frac), |frac|))
    else
      None
  }

  /** A decimal literal with an optional leading sign; None when the text is
      not one (the ValueError / InvalidOperation of float() and Decimal()). */
  function ParseDecimal(s: string): (r: Option<Dec>)
    ensures r.Some? ==> |s| > 0
    ensures r.Some? ==> r.value.scale == if DotIndex(s) < |s| then |s| - DotIndex(s) - 1 else 0
    ensures r.Some? && r.value.digits < 0 ==> s[0] == '-'
  {
    if |s| > 0 && (s[0] == '-' || s[0] == '+') then
      match ParseUnsigned(s[1..])
      case None => None
      case Some(d) => Some(if s[0] == '-' then Dec(-d.digits, d.scale) else d)
    else
      ParseUnsigned(s)
  }

  lemma DotIndexOfDigits(w: string, t: string)
    requires AllDigits(w)
    requires t == [] || t[0] == '.'
    ensures DotIndex(w + t) == |w|
  {
    assert forall i :: 0 <= i < |w| ==> (w + t)[i] == w[i];
    assert t != [] ==> (w + t)[|w|] == '.';
  }

  lemma ParseDigitsOnly(w: string)
    requires AllDigits(w) && |w| > 0
    ensures ParseUnsigned(w) == ParseParts(w, "")
  {
    DotIndexOfDigits(w, "");
    assert w + "" == w;
    assert w[..|w|] == w;
  }

  lemma ParseDigitsWithFraction(w: string, f: string)
    requires AllDigits(w)
    ensures ParseUnsigned(w + "." + f) == ParseParts(w, f)
  {
    var s := w + "." + f;
    assert s == w + ("." + f);
    DotIndexOfDigits(w, "." + f);
    assert s[..|w|] == w;
    assert s[|w| + 1..] == f;
  }

  lemma WholeAndFraction(mag: nat, scale: nat)
    ensures WholePart(mag, scale) * Pow10(scale) + FracPart(mag, scale) == mag
  {
    var p := Pow10(scale);
    assert mag == (mag / p) * p + mag % p;
  }

  lemma ParseMagnitudeText(mag: nat, scale: nat)
    ensures ParseUnsigned(MagnitudeText(mag, scale)) == Some(Dec(mag, scale))
  {
    var whole, frac := WholePart(mag, scale), FracPart(mag, scale);
    WholeAndFraction(mag, scale);
    ParsePartsText(whole, frac, scale);
  }

  lemma ParsePartsText(whole: nat, frac: nat, scale: nat)
    requires frac < Pow10(scale)
    ensures ParseUnsigned(PartsText(whole, frac, scale)) == Some(Dec(whole * Pow10(scale) + frac, scale))
  {
    if scale == 0 {
      ParseWholeText(whole);
    } else {
      ParseFractionText(whole, frac, scale);
    }
  }

  lemma ParsePartsValue(w: string, f: string, whole: nat, frac: nat, scale: nat)
    requires AllDigits(w) && AllDigits(f) && |w| > 0 && |f| == scale
    requires DigitsValue(w) == whole && DigitsValue(f) == frac
    ensures ParseParts(w, f) == Some(Dec(whole * Pow10(scale) + frac, scale))
  {
  }

  lemma ParseWholeText(whole: nat)
    ensures ParseUnsigned(NatDigits(whole)) == Some(Dec(whole, 0))
  {
    NatDigitsValue(whole);
    ParseDigitsOnly(NatDigits(whole));
  }

  lemma ParseFractionText(whole: nat, frac: nat, scale: nat)
    requires frac < Pow10(scale)
    ensures ParseUnsigned(NatDigits(whole) + "." + PaddedDigits(frac, scale))
            == Some(Dec(whole * Pow10(scale) + frac, scale))
  {
    var w := NatDigits(whole);
    var f := PaddedDigits(frac, scale);
    assert DigitsValue(w) == whole by { NatDigitsValue(whole); }
    assert DigitsValue(f) == frac by { PaddedDigitsValue(frac, scale); }
    ParsePartsValue(w, f, whole, frac, scale);
    ParseDigitsWithFraction(w, f);
  }

  /** str() then Decimal(): reading back the text of a decimal gives the very
      same decimal, digits and scale alike. */
  lemma DecTextRoundTrip(d: Dec)
    ensures ParseDecimal(DecText(d)) == Some(d)
  {
    var u := MagnitudeText(Abs(d.digits), d.scale);
    ParseMagnitudeText(Abs(d.digits), d.scale);
    if d.digits < 0 {
      assert DecText(d) == "-" + u;
      assert ("-" + u)[1..] == u;
    } else {
      assert DecText(d) == u;
    }
  }
}
