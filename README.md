# Weather by CEP: a Dafny model of the request pipeline

This service answers `GET /weather/{cep}` with the current temperature at a
Brazilian postal code (CEP). It works in four steps:

1. It validates the CEP: exactly eight ASCII digits, the regular expression `^\d{8}$`.
2. It asks a location provider for the CEP's city.
3. It asks a weather provider for that city's temperature in Celsius.
4. It converts the reading into Celsius, Fahrenheit and Kelvin.

The HTTP handler then maps the outcome to a status code. Four modules model this:

- `Errors` (`errors.dfy`): the Go error values involved. These are the two sentinels
  `ErrInvalidZipCode` and `ErrZipCodeNotFound`, opaque other errors, and errors
  wrapped with `%w`. It also models `errors.Is`, which walks the wrap chain.
  `Result<T>` stands for Go's `(value, error)` return pair.
- `Entity` (`entity.dfy`): `WeatherOutput` and `NewWeatherOutput`, with the
  conversion's inverses and properties.
- `UseCase` (`usecase.dfy`): `IsValidCEP` is modelled as the matcher of `\d{8}$`
  and proved equal to "length 8, every character a digit". `Execute` takes the two
  collaborators as functions from their argument to their answer. It returns its
  outcome together with the trace of collaborator calls it made. That trace is
  what lets the model state "called once, with exactly this argument" and
  "never called".
- `Handler` (`handler.dfy`): `GetWeather` becomes a function. It returns the
  status and body (a text message or the JSON DTO) instead of writing a response.

Two behaviours of the code are worth knowing:

- The use case returns every collaborator error unchanged. It does not fold
  failures into one generic upstream error. So a collaborator that returned
  `ErrInvalidZipCode`, or an error wrapping `ErrZipCodeNotFound`, would get a
  422 or a 404. The `Handler.StatusTable` lemma gives the usual table under the
  assumption `Handler.AdapterShaped`, which says the errors have the shapes the
  two HTTP adapters produce.
- The code does not check that the city is non-empty. The weather provider is
  called with whatever city comes back, even `""`
  (`UseCase.EmptyCityIsNotRejected`).

## Model

| member | source | states |
|---|---|---|
| `Errors.Is` | internal/infra/web/handler/weather_handler.go:49-53 | `errors.Is(err, target)` holds if and only if target occurs in err's wrap chain (err, what it wraps, and so on down to the innermost error) |
| `Errors.IsUnwrappedIffRoot` | internal/infra/web/handler/weather_handler.go:49-55 | `errors.Is(err, sentinel)` holds exactly when the innermost error of err's wrap chain is that sentinel |
| `Errors.SentinelsExclusive` | internal/infra/web/handler/weather_handler.go:49-56 | no error is both `ErrInvalidZipCode` and `ErrZipCodeNotFound`, so the handler's 422 and 404 branches never compete |
| `Entity.NewWeatherOutput` | internal/domain/entity/weather.go:11-16 | keeps the Celsius input; the triple is consistent (F = C·1.8 + 32, K = C + 273.15); Celsius is recovered from both F and K by the inverse conversions |
| `Entity.ConsistentIsNewWeatherOutput` | internal/domain/entity/weather.go:11-16 | a triple satisfies the two conversion formulas if and only if it is what `NewWeatherOutput` builds from its Celsius field |
| `Entity.ConversionIsInjective` | internal/domain/entity/weather.go:14-15 | two readings give the same Fahrenheit (or the same Kelvin) value if and only if they are equal |
| `Entity.KelvinOffsetIsConstant` | internal/domain/entity/weather.go:15 | Kelvin minus Celsius is 273.15 for every reading |
| `Entity.ConversionIsMonotone` | internal/domain/entity/weather.go:14-15 | one reading is below another if and only if its Fahrenheit value is, and likewise for Kelvin |
| `Entity.CelsiusEqualsFahrenheitOnlyAtMinusForty` | internal/domain/entity/weather.go:14 | the Fahrenheit value equals the Celsius value exactly at -40 |
| `Entity.ConversionExamples` | internal/domain/entity/weather.go:11-16 | 25 C gives (25, 77, 298.15); 0 C gives (0, 32, 273.15); -40 C gives (-40, -40, 233.15) |
| `UseCase.MatchDigitsIff` | internal/usecase/get_weather_by_cep.go:87-88 | the anchored pattern `\d{n}$` accepts exactly the strings of length n whose every character is an ASCII digit |
| `UseCase.IsValidCEP` | internal/usecase/get_weather_by_cep.go:86-89 | `isValidCEP` holds if and only if the CEP has length 8 and every character is an ASCII digit '0'..'9' |
| `UseCase.CEPExamples` | internal/usecase/get_weather_by_cep.go:86-89 | "01001000" is accepted; "12345", "", nine digits, "0100100a", "01001-000", a trailing newline and a non-ASCII digit are rejected |
| `UseCase.OutputFor` | internal/usecase/get_weather_by_cep.go:72-80 | the output DTO keeps the Celsius reading and its fields satisfy the conversion formulas |
| `UseCase.Execute` | internal/usecase/get_weather_by_cep.go:53-83 | calls happen exactly for a valid CEP; location first with the input CEP; weather at most once, only with the city returned; nothing after a failure; an error is `ErrInvalidZipCode` with no call, or else the last call's error unchanged; success means both answered and the output is the conversion of the reported temperature |
| `UseCase.LocationCalledOnceWithInput` | internal/usecase/get_weather_by_cep.go:59-60 | for a valid CEP the location provider is called with the input CEP, and it is never called twice |
| `UseCase.InvalidCEPCallsNothing` | internal/usecase/get_weather_by_cep.go:54-57 | an invalid CEP gives `ErrInvalidZipCode`, no output and an empty call trace |
| `UseCase.LocationFailurePassesThrough` | internal/usecase/get_weather_by_cep.go:59-64 | a location error, `ErrZipCodeNotFound` included, is returned unchanged and the weather provider is never called |
| `UseCase.WeatherFailurePassesThrough` | internal/usecase/get_weather_by_cep.go:66-70 | a weather error is returned unchanged after exactly the two calls (location with the CEP, weather with its city) |
| `UseCase.SuccessIffBothLookupsSucceed` | internal/usecase/get_weather_by_cep.go:72-82 | the output is present if and only if the CEP is valid and both lookups succeed; its fields then equal `NewWeatherOutput` of the reading, field for field |
| `UseCase.EmptyCityIsNotRejected` | internal/usecase/get_weather_by_cep.go:60-67 | an empty city from the location provider is still passed to the weather provider |
| `UseCase.SaoPauloAt25` | internal/usecase/get_weather_by_cep_test.go:35-58 | CEP 01001000 located in "São Paulo" at 25 C yields (25, 77, 298.15) after exactly those two calls |
| `Handler.Respond` | internal/infra/web/handler/weather_handler.go:47-64 | 200 with the JSON DTO if and only if success; 422 "invalid zipcode" if and only if the error's root is `ErrInvalidZipCode`; 404 "can not find zipcode" if and only if it is `ErrZipCodeNotFound`; 500 for every other error |
| `Handler.GetWeather` | internal/infra/web/handler/weather_handler.go:37-65 | 400 "zipcode is required" if and only if the path parameter is empty, and then no call is made; otherwise the calls are those of the use case; the response is then exactly `Respond` of the use case's outcome (status and body); the status is always one of 200, 400, 404, 422 or 500, and 200 exactly when the use case succeeds |
| `Handler.MalformedCEPIsUnprocessable` | internal/infra/web/handler/weather_handler.go:44-51 | a non-empty CEP that is not eight digits gets 422 "invalid zipcode" with no collaborator call, whatever the collaborators would answer |
| `Handler.UnknownCEPIsNotFound` | internal/infra/web/handler/weather_handler.go:53-55 | a valid CEP that the location provider reports as not found gets 404, after the location call only |
| `Handler.AdapterShaped` | internal/infra/adapter/via_cep_adapter.go:32-56 | the error shapes of the two adapters (location: `ErrZipCodeNotFound` itself or an error whose chain holds no sentinel; weather: an error whose chain holds no sentinel); it implies errors.Is never takes a location error for `ErrInvalidZipCode`, nor a weather error for either sentinel |
| `Handler.StatusTable` | internal/infra/web/handler/weather_handler.go:47-58 | with adapter-shaped collaborators: 422 if and only if the CEP is malformed, 404 if and only if location says not found, 500 if and only if location fails with another error or weather fails |
| `Handler.SaoPauloRequest` | internal/infra/web/handler/weather_handler.go:62-64 | the request for 01001000 in São Paulo at 25 C is answered 200 with the JSON DTO (25, 77, 298.15) |
| `Handler.ShortCEPRequest` | internal/infra/web/handler/weather_handler.go:49-51 | the request for "12345" is answered 422 "invalid zipcode" |

## Left out

- Process startup (cmd/server/main.go) is not modelled: configuration loading, the API key, logging and `http.ListenAndServe`. Router and middleware wiring (internal/infra/web/server/server.go) is not modelled either.
- The two HTTP adapters are not modelled as code. Their URL building, `url.QueryEscape`, HTTP requests and JSON decoding become the abstract `Providers`. Their error behaviour appears only as the `Handler.AdapterShaped` assumption: ViaCEP's `erro: true` gives `ErrZipCodeNotFound`, and any other failure (including a `*url.Error` that wraps its cause) gives an error whose wrap chain holds no sentinel. The weather adapter's own lines (internal/infra/adapter/weather_api_adapter.go:39-57) are covered by the same assumption.
- `context.Context`, cancellation and per-request goroutines are left out. A collaborator's answer depends only on its argument.
- Floating point is left out. Temperatures are `real`, so the conversions are exact. The model does not capture IEEE-754 rounding of `tempC*1.8 + 32` or of `tempC + 273.15`.
- Regular-expression matching in general is left out. `isValidCEP` is modelled only for its one pattern `^\d{8}$`. The model assumes RE2 semantics there: `\d` is ASCII-only, and `$` means end of text.
- Several response details are left out. `http.Error` sets headers and appends a newline, and the JSON encoder appends one as well. The `Content-Type` header, the exact JSON text, and a failure of `Encode` after the 200 header is written are not modelled. A body is either a text message or the DTO it encodes.
- Error identity is simplified. Go compares `errors.New` values by pointer; the model compares `Other` errors by their tag. `errors.Is` is modelled for single-cause `%w` chains only. Multi-error wrapping (`errors.Join`) and custom `Is` methods are left out.
- A nil collaborator (a panic in Go) and the constructors `NewGetWeatherByCepUseCase` and `NewWeatherHandler` are left out. The constructors only store their arguments.
