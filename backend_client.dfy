/**
  The backend client: it forwards a validated city to the upstream service and, when
  the exchange fails in any way, falls back to a locally built mock result.

  The HTTP exchange itself (`_post_json`) is not modelled: it is a parameter `post`
  that maps the request the client sends to the outcome of sending it.
*/
module Forwarder {
  import opened Wrappers
  import opened Text
  import opened Schemas

  /** The upstream endpoint, relative to the base URL. */
  const ProcessPath: string := "/api/city/process"

  /** The note carried by the mock result. */
  const MockNote: string := "Backend not reachable; returned mock response."

  /** A POST to the upstream service: its full URL and its JSON body. */
  datatype Request = Request(url: string, body: map<string, string>)

  /** What awaiting `_post_json` yields. `Failed` stands for every way that call raises:
      a connection error or timeout, a non-2xx status rejected by `raise_for_status`, or a
      body that is not JSON. `Received` carries the decoded body, whatever its shape. */
  datatype Outcome = Failed | Received(json: JsonVal)

  /** The JSON body the client sends: always the city, and the source only when one was
      given and it is not the empty string (Python truthiness of an optional string). */
  function Payload(city: string, source: Option<string>): (p: map<string, string>)
    ensures "city" in p && p["city"] == city
    ensures "source" in p <==> source.Some? && source.value != []
    ensures "source" in p ==> p["source"] == source.value
    ensures p.Keys <= {"city", "source"}
  {
    if source.Some? && source.value != [] then map["city" := city, "source" := source.value]
    else map["city" := city]
  }

  /** The request sent for a city by a client whose stored base URL is `baseUrl`. */
  function OutboundRequest(baseUrl: string, city: string, source: Option<string>): Request {
    Request(baseUrl + ProcessPath, Payload(city, source))
  }

  /** The fallback result: the city stripped and title-cased, status "ok", and the note.
      Building it passes the schema check, so the `except` branch itself cannot raise. */
  function MockResult(city: string): (r: ForwardResult)
    ensures MakeForwardResult(JStr(Title(Strip(city))), JStr("ok"), JObj(map["note" := JStr(MockNote)])) == Some(r)
  {
    MakeForwardResult(JStr(Title(Strip(city))), JStr("ok"), JObj(map["note" := JStr(MockNote)])).value
  }

  /** The result built from an upstream JSON object: `normalized_city` if truthy, else the
      title-cased stripped city; `status` defaulting to "ok"; `metadata` defaulting to null.
      `None` when the schema rejects the values. */
  function FromUpstream(city: string, data: map<string, JsonVal>): Option<ForwardResult> {
    var upstream := if "normalized_city" in data then data["normalized_city"] else JNull;
    var normalized := if Truthy(upstream) then upstream else JStr(Title(Strip(city)));
    var status := if "status" in data then data["status"] else JStr("ok");
    var metadata := if "metadata" in data then data["metadata"] else JNull;
    MakeForwardResult(normalized, status, metadata)
  }

  /** What `forward_city` returns for a city, given the outcome of the upstream exchange.
      A body that is not a JSON object has no `.get`, which raises, as does a rejected
      schema; every such exception is caught and answered with the mock result. */
  function Forwarded(city: string, outcome: Outcome): ForwardResult {
    match outcome
    case Received(JObj(data)) =>
      (match FromUpstream(city, data)
       case Some(result) => result
       case None => MockResult(city))
    case _ => MockResult(city)
  }

  /** The outcomes the client accepts as a real answer, stated field by field: the exchange
      succeeded, the body is a JSON object, a truthy `normalized_city` is a string, a
      present `status` is a string, and a present `metadata` is null or an object. */
  predicate Accepted(outcome: Outcome) {
    && outcome.Received?
    && outcome.json.JObj?
    && var data := outcome.json.fields;
    && ("normalized_city" in data && Truthy(data["normalized_city"]) ==> data["normalized_city"].JStr?)
    && ("status" in data ==> data["status"].JStr?)
    && ("metadata" in data ==> data["metadata"].JNull? || data["metadata"].JObj?)
  }

  /** Any outcome that is not accepted (including every failed exchange) yields exactly the
      mock result; no failure reaches the caller. */
  lemma FallbackUnlessAccepted(city: string, outcome: Outcome)
    requires !Accepted(outcome)
    ensures var r := Forwarded(city, outcome);
      && r.normalizedCity == Title(Strip(city))
      && r.status == "ok"
      && r.metadata == Some(map["note" := JStr(MockNote)])
  {
    if outcome.Received? && outcome.json.JObj? {
      assert FromUpstream(city, outcome.json.fields).None?;
    }
  }

  /** An accepted outcome yields the upstream fields with their defaults: `normalized_city`
      when present and truthy, else the title-cased stripped city; `status` when present,
      else "ok"; `metadata` when present and an object, else none. */
  lemma AcceptedFields(city: string, outcome: Outcome)
    requires Accepted(outcome)
    ensures var data := outcome.json.fields; var r := Forwarded(city, outcome);
      && r.normalizedCity ==
           (if "normalized_city" in data && Truthy(data["normalized_city"])
            then data["normalized_city"].str else Title(Strip(city)))
      && r.status == (if "status" in data then data["status"].str else "ok")
      && r.metadata ==
           (if "metadata" in data && data["metadata"].JObj?
            then Some(data["metadata"].fields) else None)
  {
    assert FromUpstream(city, outcome.json.fields).Some?;
  }

  /** Whatever the upstream does, a city that is not blank gets a non-empty normalized name:
      a truthy upstream string is non-empty, and title-casing keeps the length. */
  lemma NormalizedNonEmpty(city: string, outcome: Outcome)
    requires Strip(city) != []
    ensures Forwarded(city, outcome).normalizedCity != []
  {
    if Accepted(outcome) {
      AcceptedFields(city, outcome);
    } else {
      FallbackUnlessAccepted(city, outcome);
    }
  }

  /** An upstream answer `{"normalized_city": "Paris", "status": "ok"}` for "paris " is
      passed through, without the fallback note. */
  lemma UpstreamParisExample(city: string, data: map<string, JsonVal>)
    requires city == "paris "
    requires data == map["normalized_city" := JStr("Paris"), "status" := JStr("ok")]
    ensures Forwarded(city, Received(JObj(data))) == ForwardResult("Paris", "ok", None)
  {
    AcceptedFields(city, Received(JObj(data)));
  }

  /** However many slashes the configured base URL ends with, the client sends the same
      request. */
  lemma RequestUrlNormalised(configured: string, slashes: string, city: string, source: Option<string>)
    requires forall k :: 0 <= k < |slashes| ==> slashes[k] == '/'
    ensures OutboundRequest(RStripSlash(configured + slashes), city, source)
         == OutboundRequest(RStripSlash(configured), city, source)
  {
    RStripSlashIgnoresExtraSlashes(configured, slashes);
  }

  /** `BackendClient`: a base URL (stored without trailing slashes) and a timeout. */
  class BackendClient {
    var baseUrl: string
    var timeout: real

    constructor (baseUrl: string, timeoutSeconds: real := 10.0)
      ensures this.baseUrl == RStripSlash(baseUrl)
      ensures this.baseUrl == [] || this.baseUrl[|this.baseUrl| - 1] != '/'
      ensures timeout == timeoutSeconds
    {
      this.baseUrl := RStripSlash(baseUrl);
      timeout := timeoutSeconds;
    }

    /** `forward_city`: builds the payload, posts it to the endpoint and picks the result.
        It sends exactly the request `OutboundRequest` describes, returns what `Forwarded`
        describes for the outcome, and never returns an empty normalized name for a city
        that is not blank. */
    method ForwardCity(city: string, source: Option<string>, post: Request -> Outcome)
      returns (result: ForwardResult)
      ensures result == Forwarded(city, post(OutboundRequest(baseUrl, city, source)))
      ensures Strip(city) != [] ==> result.normalizedCity != []
    {
      var payload := map["city" := city];
      if source.Some? && source.value != [] {
        payload := payload["source" := source.value];
      }
      var outcome := post(Request(baseUrl + ProcessPath, payload));
      // The guarded block: the exchange, `data.get` on the body, and the schema check.
      var built: Option<ForwardResult> := None;
      if outcome.Received? && outcome.json.JObj? {
        built := FromUpstream(city, outcome.json.fields);
      }
      match built {
        case Some(r) => result := r;
        case None => result := MockResult(city);
      }
      if Strip(city) != [] {
        NormalizedNonEmpty(city, outcome);
      }
    }
  }
}
