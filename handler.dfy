/**
 * The HTTP handler for GET /weather/{cep}: the decision from the path
 * parameter and the use case's outcome to a status code and a body. The
 * response writer is replaced by the returned Response value.
 */
module Handler {
  import opened Errors
  import UseCase

  const StatusOK: int := 200
  const StatusBadRequest: int := 400
  const StatusNotFound: int := 404
  const StatusUnprocessableEntity: int := 422
  const StatusInternalServerError: int := 500

  /** A plain-text error message (as written by http.Error) or the JSON-encoded output DTO. */
  datatype Body = Text(message: string) | Json(output: UseCase.OutputDTO)

  datatype Response = Response(status: int, body: Body)

  /**
   * The error-to-status table applied to a use-case outcome: which sentinel
   * an error is (through any wrapping) decides between 422, 404 and 500.
   */
  function Respond(outcome: Result<UseCase.OutputDTO>): (resp: Response)
    ensures resp.status == StatusOK <==> outcome.Ok?
    ensures outcome.Ok? ==> resp.body == Json(outcome.value)
    ensures resp.status == StatusUnprocessableEntity <==> outcome.Err? && Root(outcome.error) == InvalidZipCode
    ensures resp.status == StatusUnprocessableEntity ==> resp.body == Text("invalid zipcode")
    ensures resp.status == StatusNotFound <==> outcome.Err? && Root(outcome.error) == ZipCodeNotFound
    ensures resp.status == StatusNotFound ==> resp.body == Text("can not find zipcode")
    ensures resp.status == StatusInternalServerError <==>
      outcome.Err? && Root(outcome.error) != InvalidZipCode && Root(outcome.error) != ZipCodeNotFound
    ensures resp.status == StatusInternalServerError ==> resp.body == Text("Internal Server Error")
  {
    match outcome
    case Ok(output) => Response(StatusOK, Json(output))
    case Err(err) =>
      IsUnwrappedIffRoot(err, InvalidZipCode);
      IsUnwrappedIffRoot(err, ZipCodeNotFound);
      if Is(err, InvalidZipCode) then Response(StatusUnprocessableEntity, Text("invalid zipcode"))
      else if Is(err, ZipCodeNotFound) then Response(StatusNotFound, Text("can not find zipcode"))
      else Response(StatusInternalServerError, Text("Internal Server Error"))
  }

  /**
   * GetWeather: an empty path parameter is answered 400 without running the
   * use case; otherwise the use case runs and its outcome is mapped by Respond.
   * Returns the response and the collaborator calls made on the way.
   */
  function GetWeather(p: UseCase.Providers, cep: string): (r: (Response, seq<UseCase.Call>))
    ensures r.0.status == StatusBadRequest <==> cep == ""
    ensures cep == "" ==> r == (Response(StatusBadRequest, Text("zipcode is required")), [])
    ensures r.0.status in {StatusOK, StatusBadRequest, StatusNotFound, StatusUnprocessableEntity, StatusInternalServerError}
    ensures r.0.status == StatusOK <==> UseCase.Execute(p, cep).0.Ok? && cep != ""
    ensures cep != "" ==> r.1 == UseCase.Execute(p, cep).1
    ensures cep != "" ==> r.0 == Respond(UseCase.Execute(p, cep).0)
  {
    if cep == "" then
      (Response(StatusBadRequest, Text("zipcode is required")), [])
    else
      var (outcome, trace) := UseCase.Execute(p, cep);
      (Respond(outcome), trace)
  }

  /** A non-empty CEP that is not eight digits is always 422 "invalid zipcode", whatever the collaborators would say, and neither is called. */
  lemma MalformedCEPIsUnprocessable(p: UseCase.Providers, cep: string)
    requires cep != "" && !UseCase.IsValidCEP(cep)
    ensures GetWeather(p, cep) == (Response(StatusUnprocessableEntity, Text("invalid zipcode")), [])
  {
  }

  /** A valid CEP the location provider reports as not found is 404, and the weather provider is never called. */
  lemma UnknownCEPIsNotFound(p: UseCase.Providers, cep: string)
    requires UseCase.IsValidCEP(cep) && p.location(cep) == Err(ZipCodeNotFound)
    ensures GetWeather(p, cep) ==
      (Response(StatusNotFound, Text("can not find zipcode")), [UseCase.GetLocationByCEP(cep)])
  {
  }

  /** An error the location adapter can return: ErrZipCodeNotFound itself, or a failure whose chain holds no sentinel. */
  predicate LocationAdapterError(e: Error)
  {
    e == ZipCodeNotFound || (Root(e) != InvalidZipCode && Root(e) != ZipCodeNotFound)
  }

  /** An error the weather adapter can return: a failure whose chain holds no sentinel. */
  predicate WeatherAdapterError(e: Error)
  {
    Root(e) != InvalidZipCode && Root(e) != ZipCodeNotFound
  }

  /**
   * The collaborators as the two HTTP adapters build them: the location
   * adapter fails with ErrZipCodeNotFound for an unknown CEP; both fail with
   * a transport, status or decoding error (possibly wrapping a cause, as
   * url.Error does) that is neither sentinel nor wraps one. So the location
   * adapter never yields an error errors.Is takes for ErrInvalidZipCode, and
   * the weather adapter never one it takes for either sentinel.
   */
  ghost predicate AdapterShaped(p: UseCase.Providers)
    ensures AdapterShaped(p) ==>
      forall cep :: p.location(cep).Err? ==> !Is(p.location(cep).error, InvalidZipCode)
    ensures AdapterShaped(p) ==>
      forall city :: p.weather(city).Err? ==>
        !Is(p.weather(city).error, InvalidZipCode) && !Is(p.weather(city).error, ZipCodeNotFound)
  {
    assert forall e: Error ::
      (Is(e, InvalidZipCode) <==> Root(e) == InvalidZipCode) && (Is(e, ZipCodeNotFound) <==> Root(e) == ZipCodeNotFound)
    by {
      forall e: Error
        ensures (Is(e, InvalidZipCode) <==> Root(e) == InvalidZipCode) && (Is(e, ZipCodeNotFound) <==> Root(e) == ZipCodeNotFound)
      {
        IsUnwrappedIffRoot(e, InvalidZipCode);
        IsUnwrappedIffRoot(e, ZipCodeNotFound);
      }
    }
    && (forall cep :: p.location(cep).Err? ==> LocationAdapterError(p.location(cep).error))
    && (forall city :: p.weather(city).Err? ==> WeatherAdapterError(p.weather(city).error))
  }

  /**
   * With adapter-shaped collaborators, the status of a non-empty CEP follows
   * the table: 422 for a malformed CEP, 404 when the location lookup says
   * not found, 500 when either lookup fails otherwise, 200 on success.
   */
  lemma StatusTable(p: UseCase.Providers, cep: string)
    requires AdapterShaped(p) && cep != ""
    ensures GetWeather(p, cep).0.status == StatusUnprocessableEntity <==> !UseCase.IsValidCEP(cep)
    ensures GetWeather(p, cep).0.status == StatusNotFound <==>
      UseCase.IsValidCEP(cep) && p.location(cep) == Err(ZipCodeNotFound)
    ensures GetWeather(p, cep).0.status == StatusInternalServerError <==>
      UseCase.IsValidCEP(cep) &&
      ((p.location(cep).Err? && p.location(cep).error != ZipCodeNotFound) ||
       (p.location(cep).Ok? && p.weather(p.location(cep).value).Err?))
  {
    if UseCase.IsValidCEP(cep) {
      match p.location(cep)
      case Err(e) =>
      case Ok(city) =>
        match p.weather(city)
        case Err(e) => assert WeatherAdapterError(e);
        case Ok(_) =>
    }
  }

  /** The request for 01001000 located in Sao Paulo at 25 C is answered 200 with (25, 77, 298.15). */
  lemma SaoPauloRequest(p: UseCase.Providers)
    requires p.location("01001000") == Ok("São Paulo") && p.weather("São Paulo") == Ok(25.0)
    ensures GetWeather(p, "01001000").0 == Response(StatusOK, Json(UseCase.OutputDTO(25.0, 77.0, 298.15)))
  {
    UseCase.SaoPauloAt25(p);
  }

  /** The request for "12345" is answered 422. */
  lemma ShortCEPRequest(p: UseCase.Providers)
    ensures GetWeather(p, "12345").0 == Response(StatusUnprocessableEntity, Text("invalid zipcode"))
  {
  }
}
