/**
 * The domain entity: one temperature reading in Celsius, Fahrenheit and
 * Kelvin. Temperatures are real numbers; the source uses float64.
 */
module Entity {

  const FahrenheitFactor: real := 1.8
  const FahrenheitOffset: real := 32.0
  const KelvinOffset: real := 273.15

  /** WeatherOutput: the same temperature in three scales. */
  datatype WeatherOutput = WeatherOutput(tempC: real, tempF: real, tempK: real)

  /** The scales agree: F = C * 1.8 + 32 and K = C + 273.15. */
  predicate Consistent(w: WeatherOutput)
  {
    w.tempF == w.tempC * FahrenheitFactor + FahrenheitOffset && w.tempK == w.tempC + KelvinOffset
  }

  /** Celsius reading back from Fahrenheit (the inverse of the Fahrenheit conversion). */
  function CelsiusOfFahrenheit(f: real): (c: real)
  {
    (f - FahrenheitOffset) / FahrenheitFactor
  }

  /** Celsius reading back from Kelvin (the inverse of the Kelvin conversion). */
  function CelsiusOfKelvin(k: real): (c: real)
  {
    k - KelvinOffset
  }

  /** NewWeatherOutput: keeps the Celsius reading and derives the other two scales from it. */
  function NewWeatherOutput(tempC: real): (w: WeatherOutput)
    ensures w.tempC == tempC
    ensures Consistent(w)
    ensures CelsiusOfFahrenheit(w.tempF) == tempC && CelsiusOfKelvin(w.tempK) == tempC
  {
    WeatherOutput(tempC, tempC * FahrenheitFactor + FahrenheitOffset, tempC + KelvinOffset)
  }

  /** A consistent triple is determined by its Celsius field: it is exactly what NewWeatherOutput builds. */
  lemma ConsistentIsNewWeatherOutput(w: WeatherOutput)
    ensures Consistent(w) <==> w == NewWeatherOutput(w.tempC)
  {
  }

  /** Each of the three fields determines the others: the conversion loses nothing. */
  lemma ConversionIsInjective(c1: real, c2: real)
    ensures NewWeatherOutput(c1).tempF == NewWeatherOutput(c2).tempF <==> c1 == c2
    ensures NewWeatherOutput(c1).tempK == NewWeatherOutput(c2).tempK <==> c1 == c2
  {
  }

  /** Kelvin is always 273.15 above Celsius, whatever the reading. */
  lemma KelvinOffsetIsConstant(c: real)
    ensures NewWeatherOutput(c).tempK - NewWeatherOutput(c).tempC == 273.15
  {
  }

  /** Warmer in Celsius means warmer in Fahrenheit and in Kelvin. */
  lemma ConversionIsMonotone(c1: real, c2: real)
    ensures c1 < c2 <==> NewWeatherOutput(c1).tempF < NewWeatherOutput(c2).tempF
    ensures c1 < c2 <==> NewWeatherOutput(c1).tempK < NewWeatherOutput(c2).tempK
  {
  }

  /** Celsius and Fahrenheit agree at exactly one reading, -40. */
  lemma CelsiusEqualsFahrenheitOnlyAtMinusForty(c: real)
    ensures NewWeatherOutput(c).tempF == c <==> c == -40.0
  {
  }

  /** Worked values: 25 C, 0 C and -40 C. */
  lemma ConversionExamples()
    ensures NewWeatherOutput(25.0) == WeatherOutput(25.0, 77.0, 298.15)
    ensures NewWeatherOutput(0.0) == WeatherOutput(0.0, 32.0, 273.15)
    ensures NewWeatherOutput(-40.0) == WeatherOutput(-40.0, -40.0, 233.15)
  {
  }
}
