/** The baseline estimate calc_travel_emission: a fixed per-mode factor in
    kg CO2e per km, times the distance, rounded to 4 decimal places. */
module Emission {
  import opened Decimals
  import opened PyValues

  /** The float 0.0 the estimate falls back to. */
  const ZeroFloat := Dec(0, 1)

  /** kg CO2e per km for the known travel modes. */
  const Factors: map<string, Dec> :=
    map["car" := Dec(192, 3), "bus" := Dec(89, 3), "train" := Dec(41, 3),
        "bike" := Dec(0, 1), "walk" := Dec(0, 1)]

  /** The factor of every mode the table does not know. */
  const UnknownModeFactor := Dec(2, 1)

  /** The factor of a mode: its entry in the table, or 0.2 for a mode the
      table does not know. Every factor is non-negative and has at most three
      decimal places. */
  function Factor(mode: string): (r: Dec)
    ensures r.digits >= 0 && r.scale <= 3
    ensures mode !in Factors ==> r == UnknownModeFactor
  {
    if mode in Factors then Factors[mode] else UnknownModeFactor
  }

  /** calc_travel_emission(distance_km, mode): a mode that is not a string
      (mode.lower() raises) or a distance float() rejects gives 0.0; otherwise
      the result is the float of the factor of the lower-cased mode times the
      distance, rounded to 4 decimal places. */
  function CalcTravelEmission(distanceKm: PyValue, mode: PyValue): (r: Dec)
    ensures IsFloatForm(r)
    ensures !mode.PStr? || ToFloat(distanceKm).Err? ==> r == ZeroFloat
    ensures mode.PStr? && ToFloat(distanceKm).Ok? ==>
              SameValue(r, Round(Mul(Factor(Lower(mode.s)), ToFloat(distanceKm).value), 4))
  {
    if !mode.PStr? then ZeroFloat
    else
      match ToFloat(distanceKm)
      case Err(_) => ZeroFloat
      case Ok(km) => FloatForm(Round(Mul(Factor(Lower(mode.s)), km), 4))
  }

  /** The table lookup ignores case: "Car", "CAR" and "car" share a factor,
      and every spelling of an unknown mode gets 0.2. */
  lemma FactorIgnoresCase(m: string)
    ensures Lower(m) == "car" ==> Factor(Lower(m)) == Dec(192, 3)
    ensures Lower(m) == "bus" ==> Factor(Lower(m)) == Dec(89, 3)
    ensures Lower(m) == "train" ==> Factor(Lower(m)) == Dec(41, 3)
    ensures Lower(m) == "bike" || Lower(m) == "walk" ==> Factor(Lower(m)).digits == 0
    ensures Lower(m) !in Factors ==> Factor(Lower(m)) == Dec(2, 1)
    ensures Factor(Lower(Lower(m))) == Factor(Lower(m))
  {
    LowerIdempotent(m);
  }

  lemma LowerIdempotent(m: string)
    ensures Lower(Lower(m)) == Lower(m)
  {
    assert forall i :: 0 <= i < |m| ==> Lower(Lower(m))[i] == Lower(m)[i];
  }

  /** A non-negative distance gives a non-negative estimate: every factor is
      non-negative and rounding to 4 places cannot cross zero. */
  lemma EmissionNonNegative(distanceKm: PyValue, mode: PyValue)
    requires ToFloat(distanceKm).Ok? ==> ToFloat(distanceKm).value.digits >= 0
    ensures CalcTravelEmission(distanceKm, mode).digits >= 0
  {
    if mode.PStr? && ToFloat(distanceKm).Ok? {
      var km := ToFloat(distanceKm).value;
      var f := Factor(Lower(mode.s));
      MulNonNegative(f.digits, km.digits);
      RoundKeepsSign(Mul(f, km), 4);
      assert FloatForm(Round(Mul(f, km), 4)).digits >= 0;
    }
  }

  /** With at most one decimal place in the distance the product already has
      at most four, so the estimate is exactly factor * distance. */
  lemma EmissionExactForShortDistances(distanceKm: PyValue, mode: string)
    requires ToFloat(distanceKm).Ok? && ToFloat(distanceKm).value.scale <= 1
    ensures SameValue(CalcTravelEmission(distanceKm, PStr(mode)), Mul(Factor(Lower(mode)), ToFloat(distanceKm).value))
  {
  }

  lemma ParseTen()
    ensures ParseDecimal("10") == Some(Dec(10, 0))
  {
    assert DotIndex("10") == 2;
    assert "10"[..2] == "10";
    assert "10"[..1] == "1";
    assert "1"[..0] == "";
    assert DigitsValue("10") == 10;
  }

  /** A bus trip of 10 km (the float 10.0 or the text "10", any case of
      "bus") is 0.89 kg. */
  lemma BusTenKilometres(mode: string)
    requires Lower(mode) == "bus"
    ensures CalcTravelEmission(PFloat(Dec(100, 1)), PStr(mode)) == Dec(89, 2)
    ensures CalcTravelEmission(PStr("10"), PStr(mode)) == Dec(89, 2)
  {
    ParseTen();
    assert ToFloat(PStr("10")) == Ok(Dec(100, 1));
    assert ToFloat(PFloat(Dec(100, 1))) == Ok(Dec(100, 1));
    assert Factor(Lower(mode)) == Dec(89, 3);
    assert Round(Dec(8900, 4), 4) == Dec(8900, 4);
    assert FloatForm(Dec(8900, 4)) == Dec(89, 2);
  }

  lemma LowerBus()
    ensures Lower("bus") == "bus"
  {
  }
}
