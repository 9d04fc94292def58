/** Numeric coercion: to_decimal_safe (value -> str -> Decimal, with a
    default) and its outward inverse dec_to_native (Decimal -> int or float). */
module Coercion {
  import opened Decimals
  import opened PyValues

  /** to_decimal_safe(value, default): None gives the default; anything else
      is printed with str() and read back with Decimal(), and text that is not
      a decimal literal gives the default instead of raising. */
  function ToDecimalSafe(value: PyValue, default: Option<Dec>): (r: Option<Dec>)
    ensures value.PNone? || value.PBool? || value.PList? || value.PDict? ==> r == default
    ensures value.PInt? ==> r == Some(Dec(value.i, 0))
    ensures value.PFloat? ==> r == Some(FloatForm(value.f))
    ensures value.PDecimal? ==> r == Some(value.d)
    ensures value.PStr? ==> r == if ParseDecimal(value.s).Some? then ParseDecimal(value.s) else default
  {
    if value.PNone? then default
    // str() of a list or a dict begins with '[' or '{', which no decimal literal does
    else if value.PList? || value.PDict? then default
    else
      var text := Str(value);
      StrThenParse(value);
      match ParseDecimal(text)
      case Some(d) => Some(d)
      case None => default
  }

  /** What Decimal() makes of the str() of a scalar. */
  lemma StrThenParse(v: PyValue)
    requires !v.PNone? && !v.PList? && !v.PDict?
    ensures v.PBool? ==> ParseDecimal(Str(v)).None?
    ensures v.PInt? ==> ParseDecimal(Str(v)) == Some(Dec(v.i, 0))
    ensures v.PFloat? ==> ParseDecimal(Str(v)) == Some(FloatForm(v.f))
    ensures v.PDecimal? ==> ParseDecimal(Str(v)) == Some(v.d)
  {
    match v
    case PBool(b) => assert !IsDigit(Str(v)[0]);
    case PInt(i) => DecTextRoundTrip(Dec(i, 0));
    case PFloat(f) => DecTextRoundTrip(FloatForm(f));
    case PDecimal(d) => DecTextRoundTrip(d);
    case PStr(_) =>
  }

  /** A number in the outgoing JSON body. */
  datatype Native = NInt(i: int) | NFloat(f: Dec)

  /** int(d): truncation toward zero. */
  function Truncate(d: Dec): int
  {
    var p := Pow10(d.scale);
    if d.digits >= 0 then d.digits / p else -((-d.digits) / p)
  }

  /** dec_to_native: an integral Decimal (one equal to its to_integral())
      becomes an int of the same value, any other one the float of its value,
      which prints in float form. */
  function ToNative(d: Dec): (r: Native)
    ensures r.NInt? <==> IsIntegral(d)
    ensures r.NInt? ==> r.i * Pow10(d.scale) == d.digits
    ensures r.NFloat? ==> IsFloatForm(r.f) && SameValue(r.f, d)
  {
    var whole := Round(d, 0);
    IntegralIffRoundsToItself(d);
    if SameValue(d, whole) then
      TruncateExact(d);
      NInt(Truncate(d))
    else
      NFloat(FloatForm(d))
  }

  lemma TruncateExact(d: Dec)
    requires IsIntegral(d)
    ensures Truncate(d) * Pow10(d.scale) == d.digits
  {
    var p := Pow10(d.scale);
    var a := d.digits;
    assert a == (a / p) * p + a % p;
    if a < 0 {
      var q := a / p;
      assert -a == (-q) * p;
      DivOfMultiple(-q, p);
    }
  }

  lemma DivOfMultiple(q: int, p: int)
    requires p > 0
    ensures (q * p) / p == q
  {
    var a := q * p;
    assert a == (a / p) * p + a % p;
    var d := a / p - q;
    assert d * p + a % p == 0;
    if d > 0 { MulAtLeastOnce(d, p); }
    if d < 0 { MulAtLeastOnce(-d, p); }
  }

  /** Decimal.to_integral() leaves d's value unchanged exactly when d has no
      fractional part. */
  lemma IntegralIffRoundsToItself(d: Dec)
    ensures SameValue(d, Round(d, 0)) <==> IsIntegral(d)
  {
    if d.scale > 0 {
      var p := Pow10(d.scale);
      var r := Round(d, 0);
      assert SameValue(d, r) <==> d.digits == r.digits * p;
      if d.digits == r.digits * p {
        DivOfMultiple(r.digits, p);
        assert d.digits == (d.digits / p) * p + d.digits % p;
      }
      if IsIntegral(d) {
        var q := d.digits / p;
        assert d.digits == q * p;
        assert 2 * Abs(r.digits * p - d.digits) <= p;
        assert r.digits * p - d.digits == (r.digits - q) * p;
        NearestMultipleUnique(r.digits, q, d.digits, p);
      }
    }
  }

  /** The value a native number stands for, as a decimal. */
  function NativeValue(n: Native): Dec
  {
    match n
    case NInt(i) => Dec(i, 0)
    case NFloat(f) => f
  }

  /** A Decimal with trailing zeros comes back as the float that prints
      without them: Decimal("12.50") gives 12.5. */
  lemma TrailingZeroFloat()
    ensures ToNative(Dec(1250, 2)) == NFloat(Dec(125, 1))
  {
    assert !IsIntegral(Dec(1250, 2));
    assert FloatForm(Dec(1250, 2)) == Dec(125, 1);
  }

  /** The inverse conversion loses nothing: the native number has the value
      of the Decimal it came from. */
  lemma ToNativeKeepsValue(d: Dec)
    ensures SameValue(NativeValue(ToNative(d)), d)
  {
  }

  /** An int goes to Decimal and back to the same int. */
  lemma IntRoundTrip(i: int)
    ensures ToDecimalSafe(PInt(i), None) == Some(Dec(i, 0))
    ensures ToNative(Dec(i, 0)) == NInt(i)
  {
  }

  /** A float goes to the Decimal of the digits it prints and back to a
      native number of the same value (5.0 comes back as 5, 19.99 as 19.99). */
  lemma FloatRoundTrip(f: Dec)
    ensures ToDecimalSafe(PFloat(f), None) == Some(FloatForm(f))
    ensures SameValue(NativeValue(ToNative(FloatForm(f))), f)
  {
    ToNativeKeepsValue(FloatForm(f));
    SameValueTransitive(NativeValue(ToNative(FloatForm(f))), FloatForm(f), f);
  }
}
