/**
  The `POST /api/city/submit` handler: strips and checks the city, forwards it once
  through the backend client, and builds the response or the HTTP error.

  The injected backend client is a parameter `forward` giving, for the city and source
  it is called with, either the result `forward_city` returns or the message of the
  exception it raises.
*/
module CityRouter {
  import opened Wrappers
  import opened Text
  import opened Schemas
  import opened Forwarder

  /** The 400 detail for a blank city. */
  const EmptyCityDetail: string := "City must be a non-empty string."

  /** The prefix of the 502 detail; the exception's message follows it. */
  const BackendFailedPrefix: string := "Backend communication failed: "

  /** An `HTTPException`: a status code and its detail. */
  datatype HttpError = HttpError(statusCode: int, detail: string)

  /** What awaiting `backend.forward_city(...)` produced: a result, or an exception whose
      `str()` is `message`. */
  datatype ForwardOutcome = Returned(result: ForwardResult) | Raised(message: string)

  /** `submit_city`. A city that is nothing but whitespace is answered with 400 and the
      fixed detail; any other city is answered with a response whose `city` is the stripped
      input (non-empty, no surrounding whitespace) and whose other fields are the forwarder's
      result, or with 502 carrying the forwarder's exception message. */
  function SubmitCity(
    request: CityRequest,
    source: Option<string>,
    forward: (string, Option<string>) -> ForwardOutcome
  ): (r: Result<CityResponse, HttpError>)
    requires request.Valid()
    ensures (r.Failure? && r.error.statusCode == 400) <==> AllSpace(request.city)
    ensures r.Failure? && r.error.statusCode == 400 ==> r.error.detail == EmptyCityDetail
    ensures (r.Failure? && r.error.statusCode == 502) <==>
      !AllSpace(request.city) && forward(Strip(request.city), source).Raised?
    ensures r.Failure? && r.error.statusCode == 502 ==>
      r.error.detail == BackendFailedPrefix + forward(Strip(request.city), source).message
    ensures r.Success? <==> !AllSpace(request.city) && forward(Strip(request.city), source).Returned?
    ensures r.Success? ==>
      && r.value.city == Strip(request.city)
      && r.value.city != []
      && !IsSpace(r.value.city[0]) && !IsSpace(r.value.city[|r.value.city| - 1])
    ensures r.Success? ==>
      var sent := forward(r.value.city, source);
      && sent.Returned?
      && r.value.normalizedCity == sent.result.normalizedCity
      && r.value.backendStatus == sent.result.status
      && r.value.metadata == sent.result.metadata
  {
    var city := Strip(request.city);
    if city == [] then
      Failure(HttpError(400, EmptyCityDetail))
    else
      match forward(city, source)
      case Raised(message) => Failure(HttpError(502, BackendFailedPrefix + message))
      case Returned(result) =>
        Success(CityResponse(city, result.normalizedCity, result.status, result.metadata))
  }

  /** A blank city never reaches the forwarder: the answer is the same whatever the
      forwarder would have done. */
  lemma BlankCitySkipsForwarder(
    request: CityRequest,
    source: Option<string>,
    forward: (string, Option<string>) -> ForwardOutcome,
    other: (string, Option<string>) -> ForwardOutcome
  )
    requires request.Valid() && AllSpace(request.city)
    ensures SubmitCity(request, source, forward) == SubmitCity(request, source, other)
  {
  }

  /** The forwarder is consulted at one point only, the stripped city with the source
      unchanged: two forwarders that agree there give the same answer. */
  lemma ForwarderConsultedOnce(
    request: CityRequest,
    source: Option<string>,
    forward: (string, Option<string>) -> ForwardOutcome,
    other: (string, Option<string>) -> ForwardOutcome
  )
    requires request.Valid()
    requires forward(Strip(request.city), source) == other(Strip(request.city), source)
    ensures SubmitCity(request, source, forward) == SubmitCity(request, source, other)
  {
  }

  /** The forwarder a real `BackendClient` with stored base URL `baseUrl` provides: it
      always returns (`forward_city` catches every failure of the exchange `post`). */
  function ClientForward(baseUrl: string, post: Request -> Outcome): (string, Option<string>) -> ForwardOutcome {
    (city: string, source: Option<string>) => Returned(Forwarded(city, post(OutboundRequest(baseUrl, city, source))))
  }

  /** Through a real backend client the 502 branch is unreachable: every request is
      answered either with the 400 for a blank city or with a response whose `city` is
      the stripped input and whose normalized name is non-empty. */
  lemma SubmitThroughClient(
    baseUrl: string,
    post: Request -> Outcome,
    request: CityRequest,
    source: Option<string>
  )
    requires request.Valid()
    ensures var r := SubmitCity(request, source, ClientForward(baseUrl, post));
      && (r.Failure? ==> r.error == HttpError(400, EmptyCityDetail))
      && (r.Success? <==> !AllSpace(request.city))
      && (r.Success? ==> r.value.city == Strip(request.city) && r.value.normalizedCity != [])
  {
    var city := Strip(request.city);
    if city != [] {
      StripIdempotent(request.city);
      NormalizedNonEmpty(city, post(OutboundRequest(baseUrl, city, source)));
    }
  }

  /** When the upstream exchange is not accepted, the client's answer is the mock: the
      normalized name is the title-cased response city, status "ok", with the note. */
  lemma SubmitFallback(
    baseUrl: string,
    post: Request -> Outcome,
    request: CityRequest,
    source: Option<string>
  )
    requires request.Valid() && !AllSpace(request.city)
    requires !Accepted(post(OutboundRequest(baseUrl, Strip(request.city), source)))
    ensures var r := SubmitCity(request, source, ClientForward(baseUrl, post));
      && r.Success?
      && r.value.normalizedCity == Title(r.value.city)
      && r.value.backendStatus == "ok"
      && r.value.metadata == Some(map["note" := JStr(MockNote)])
  {
    var city := Strip(request.city);
    StripIdempotent(request.city);
    FallbackUnlessAccepted(city, post(OutboundRequest(baseUrl, city, source)));
  }

  /** `"  tokyo "` with an unreachable upstream is answered with city "tokyo", normalized
      name "Tokyo", status "ok" and the fallback note. */
  lemma TokyoUnreachableExample(baseUrl: string, input: string, post: Request -> Outcome)
    requires input == "  tokyo "
    requires forall req :: post(req) == Failed
    ensures SubmitCity(CityRequest(input), None, ClientForward(baseUrl, post))
      == Success(CityResponse("tokyo", "Tokyo", "ok", Some(map["note" := JStr(MockNote)])))
  {
    var request := CityRequest(input);
    var city := "tokyo";
    assert Strip(input) == city by {
      assert input == "  " + city + " ";
      assert AllSpace("  ") && AllSpace(" ");
      StripPadded("  ", city, " ");
    }
    assert Title(city) == "Tokyo" by {
      var t := Title(city);
      assert t[0] == 'T' && t[1] == 'o' && t[2] == 'k' && t[3] == 'y' && t[4] == 'o';
    }
    SubmitThroughClient(baseUrl, post, request, None);
    SubmitFallback(baseUrl, post, request, None);
  }
}
