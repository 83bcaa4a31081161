/** The legacy unit conversion helpers: two multiplications by rounded factors. */
module Conversion {
  import Distance

  function KilometersToMiles(kilometers: real): (miles: real)
    ensures kilometers == 0.0 ==> miles == 0.0
    ensures kilometers >= 0.0 ==> 0.0 <= miles <= kilometers
  {
    kilometers * 0.621371
  }

  function MilesToKilometers(miles: real): (kilometers: real)
    ensures miles == 0.0 ==> kilometers == 0.0
    ensures miles >= 0.0 ==> miles <= kilometers
  {
    miles * 1.60934
  }

  /** Each conversion multiplies by its own factor: one kilometre is 0.621371 miles, one mile
      1.60934 kilometres, and every other distance scales from these. */
  lemma ConversionFactors(d: real, c: real)
    ensures KilometersToMiles(1.0) == 0.621371 && MilesToKilometers(1.0) == 1.60934
    ensures KilometersToMiles(c * d) == c * KilometersToMiles(d)
    ensures MilesToKilometers(c * d) == c * MilesToKilometers(d)
  {
  }

  /** The legacy kilometre conversion and the newer `Kilometer.to_miles` agree exactly. */
  lemma LegacyKilometersMatchKilometerObject(kilometers: real)
    requires kilometers >= 0.0
    ensures KilometersToMiles(kilometers) == Distance.ToMiles(Distance.Kilometer(kilometers)).value.value
  {
  }

  lemma ConversionsMonotone(a: real, b: real)
    requires a <= b
    ensures KilometersToMiles(a) <= KilometersToMiles(b)
    ensures MilesToKilometers(a) <= MilesToKilometers(b)
  {
  }

  /** The two factors are rounded independently, so a round trip shrinks every
      non-zero distance by the factor 0.621371 * 1.60934 = 0.99999720514. */
  lemma RoundTripShrinks(kilometers: real)
    ensures MilesToKilometers(KilometersToMiles(kilometers)) == kilometers * 0.99999720514
    ensures kilometers > 0.0 ==> MilesToKilometers(KilometersToMiles(kilometers)) < kilometers
    ensures kilometers != 0.0 ==> MilesToKilometers(KilometersToMiles(kilometers)) != kilometers
  {
  }

  /** The legacy helper gives a slightly shorter distance than the newer `Mile.to_kilometers`,
      which divides by 0.621371 instead of multiplying by 1.60934. */
  lemma LegacyMilesShorterThanMileObject(miles: real)
    requires miles > 0.0
    ensures MilesToKilometers(miles) < Distance.ToKilometers(Distance.Mile(miles)).value.value
  {
  }
}
