/**
 * The GetWeatherByCep use case: validate a CEP (Brazilian postal code),
 * look up its city, look up that city's temperature, convert it.
 *
 * The two collaborators are abstract: each is a function from its one
 * argument to the answer the provider gives (a value or an error). Execute
 * returns, besides its outcome, the trace of provider calls it made, in
 * order, so that which provider was asked what (and which was never asked)
 * can be stated.
 */
module UseCase {
  import opened Errors
  import Entity

  /** Length of a CEP. */
  const CEPLength: nat := 8

  /** A call the use case makes on one of its collaborators. */
  datatype Call =
    | GetLocationByCEP(cep: string)      // LocationProvider.GetLocationByCEP
    | GetWeatherByCity(city: string)     // WeatherProvider.GetWeatherByCity

  /** The injected collaborators: CEP to city name, city name to Celsius. */
  datatype Providers = Providers(location: string -> Result<string>, weather: string -> Result<real>)

  /** The use case's output: the temperature in the three scales. */
  datatype OutputDTO = OutputDTO(tempC: real, tempF: real, tempK: real)

  /** The regular expression class \d: an ASCII decimal digit only. */
  predicate IsDigit(c: char)
  {
    '0' <= c <= '9'
  }

  /** The anchored pattern \d{n}$ matched against the whole of s: n digits, then the end of the text. */
  predicate MatchDigits(s: string, n: nat)
    decreases n
  {
    if n == 0 then |s| == 0 else |s| > 0 && IsDigit(s[0]) && MatchDigits(s[1..], n - 1)
  }

  /** The pattern \d{n}$ accepts exactly the strings of length n made only of digits. */
  lemma {:induction false} MatchDigitsIff(s: string, n: nat)
    ensures MatchDigits(s, n) <==> |s| == n && forall i :: 0 <= i < |s| ==> IsDigit(s[i])
    decreases n
  {
    if n > 0 && |s| > 0 {
      MatchDigitsIff(s[1..], n - 1);
      if |s| == n && forall i :: 0 <= i < |s| ==> IsDigit(s[i]) {
        assert forall i :: 0 <= i < |s[1..]| ==> IsDigit(s[1..][i]) by {
          forall i | 0 <= i < |s[1..]| ensures IsDigit(s[1..][i]) {
            assert s[1..][i] == s[i + 1];
          }
        }
      }
      if MatchDigits(s, n) {
        forall i | 0 <= i < |s| ensures IsDigit(s[i]) {
          if i > 0 {
            assert s[i] == s[1..][i - 1];
          }
        }
      }
    }
  }

  /** isValidCEP: the whole string matches ^\d{8}$, that is, it is exactly eight ASCII digits. */
  predicate IsValidCEP(cep: string)
    ensures IsValidCEP(cep) <==> |cep| == CEPLength && forall i :: 0 <= i < |cep| ==> IsDigit(cep[i])
  {
    MatchDigitsIff(cep, CEPLength);
    MatchDigits(cep, CEPLength)
  }

  /** Whether a collaborator answered a call with an error. */
  predicate Failed(p: Providers, c: Call)
  {
    match c
    case GetLocationByCEP(cep) => p.location(cep).Err?
    case GetWeatherByCity(city) => p.weather(city).Err?
  }

  /** The error a collaborator answered a call with. */
  function ErrorOf(p: Providers, c: Call): (e: Error)
    requires Failed(p, c)
  {
    match c
    case GetLocationByCEP(cep) => p.location(cep).error
    case GetWeatherByCity(city) => p.weather(city).error
  }

  /** The output DTO built field by field from the domain entity for a Celsius reading. */
  function OutputFor(tempC: real): (out: OutputDTO)
    ensures out.tempC == tempC
    ensures Entity.Consistent(Entity.WeatherOutput(out.tempC, out.tempF, out.tempK))
  {
    var w := Entity.NewWeatherOutput(tempC);
    OutputDTO(w.tempC, w.tempF, w.tempK)
  }

  /**
   * Execute: the pipeline, with its call trace. Validation comes before any
   * call; each collaborator is called at most once; the pipeline stops at
   * the first failure and returns that failure's error unchanged; on
   * success the output is the conversion of what the weather provider said.
   */
  function Execute(p: Providers, cep: string): (r: (Result<OutputDTO>, seq<Call>))
    // a call is made exactly when the CEP is valid, and the first is the location lookup with the input itself
    ensures r.1 != [] <==> IsValidCEP(cep)
    ensures r.1 != [] ==> r.1[0] == GetLocationByCEP(cep)
    ensures |r.1| <= 2 && forall i :: 0 < i < |r.1| ==> r.1[i].GetWeatherByCity?
    // the weather provider is asked about exactly the city the location provider returned
    ensures |r.1| == 2 ==> p.location(cep).Ok? && r.1[1] == GetWeatherByCity(p.location(cep).value)
    // no call is made after a failed one
    ensures forall i :: 0 <= i < |r.1| - 1 ==> !Failed(p, r.1[i])
    // errors: an invalid CEP before any call, otherwise the last call's error, unchanged
    ensures r.0.Err? && r.1 == [] ==> r.0.error == InvalidZipCode
    ensures r.0.Err? && r.1 != [] ==> Failed(p, r.1[|r.1| - 1]) && r.0.error == ErrorOf(p, r.1[|r.1| - 1])
    // success: both calls made and answered, output converted from the reported temperature
    ensures r.0.Ok? ==> |r.1| == 2 && !Failed(p, r.1[1])
    ensures r.0.Ok? ==> r.0.value == OutputFor(p.weather(r.1[1].city).value)
  {
    if !IsValidCEP(cep) then
      (Err(InvalidZipCode), [])
    else
      match p.location(cep)
      case Err(e) => (Err(e), [GetLocationByCEP(cep)])
      case Ok(city) =>
        match p.weather(city)
        case Err(e) => (Err(e), [GetLocationByCEP(cep), GetWeatherByCity(city)])
        case Ok(tempC) => (Ok(OutputFor(tempC)), [GetLocationByCEP(cep), GetWeatherByCity(city)])
  }

  /** The location provider is called at most once, and exactly once (with the input CEP) when the CEP is valid. */
  lemma LocationCalledOnceWithInput(p: Providers, cep: string)
    ensures IsValidCEP(cep) ==>
      exists i :: 0 <= i < |Execute(p, cep).1| && Execute(p, cep).1[i] == GetLocationByCEP(cep)
    ensures forall i, j ::
      0 <= i < j < |Execute(p, cep).1| ==> !(Execute(p, cep).1[i].GetLocationByCEP? && Execute(p, cep).1[j].GetLocationByCEP?)
  {
    if IsValidCEP(cep) {
      assert Execute(p, cep).1[0] == GetLocationByCEP(cep);
    }
  }

  /** An invalid CEP yields ErrInvalidZipCode, no output, and no collaborator is called. */
  lemma InvalidCEPCallsNothing(p: Providers, cep: string)
    requires !IsValidCEP(cep)
    ensures Execute(p, cep) == (Err(InvalidZipCode), [])
  {
  }

  /** A failed location lookup is returned unchanged (ErrZipCodeNotFound included) and the weather provider is never called. */
  lemma LocationFailurePassesThrough(p: Providers, cep: string)
    requires IsValidCEP(cep) && p.location(cep).Err?
    ensures Execute(p, cep) == (Err(p.location(cep).error), [GetLocationByCEP(cep)])
    ensures forall c :: c in Execute(p, cep).1 ==> !c.GetWeatherByCity?
  {
  }

  /** A failed weather lookup is returned unchanged: never rewritten as not-found or invalid. */
  lemma WeatherFailurePassesThrough(p: Providers, cep: string)
    requires IsValidCEP(cep) && p.location(cep).Ok? && p.weather(p.location(cep).value).Err?
    ensures Execute(p, cep).0 == Err(p.weather(p.location(cep).value).error)
    ensures Execute(p, cep).1 == [GetLocationByCEP(cep), GetWeatherByCity(p.location(cep).value)]
  {
  }

  /** Success exactly when the CEP is valid and both lookups succeed; the output is then the converted reading. */
  lemma SuccessIffBothLookupsSucceed(p: Providers, cep: string)
    ensures Execute(p, cep).0.Ok? <==>
      IsValidCEP(cep) && p.location(cep).Ok? && p.weather(p.location(cep).value).Ok?
    ensures Execute(p, cep).0.Ok? ==>
      var out := Execute(p, cep).0.value;
      var w := Entity.NewWeatherOutput(p.weather(p.location(cep).value).value);
      out.tempC == w.tempC && out.tempF == w.tempF && out.tempK == w.tempK
  {
  }

  /** The weather provider is called even when the location provider returns an empty city name. */
  lemma EmptyCityIsNotRejected(p: Providers, cep: string)
    requires IsValidCEP(cep) && p.location(cep) == Ok("")
    ensures Execute(p, cep).1 == [GetLocationByCEP(cep), GetWeatherByCity("")]
  {
  }

  /** Sample CEPs: accepted and rejected. */
  lemma CEPExamples()
    ensures IsValidCEP("01001000") && IsValidCEP("99999999")
    ensures !IsValidCEP("12345") && !IsValidCEP("") && !IsValidCEP("010010000")
    ensures !IsValidCEP("0100100a") && !IsValidCEP("01001-000") && !IsValidCEP("01001000\n")
    ensures !IsValidCEP("0100100\U{0663}")   // a non-ASCII decimal digit is not \d
  {
    assert "0100100a"[7] == 'a';
    assert "01001-000"[5] == '-';
    assert "0100100\U{0663}"[7] == '\U{0663}';
  }

  /** The scenario of a valid CEP located in Sao Paulo at 25 C. */
  lemma SaoPauloAt25(p: Providers)
    requires p.location("01001000") == Ok("São Paulo") && p.weather("São Paulo") == Ok(25.0)
    ensures Execute(p, "01001000") ==
      (Ok(OutputDTO(25.0, 77.0, 298.15)), [GetLocationByCEP("01001000"), GetWeatherByCity("São Paulo")])
  {
    assert IsValidCEP("01001000");
  }
}
