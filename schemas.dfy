/**
  The data shapes of the gateway: the inbound request, the result the backend client
  hands back, the response sent to the client, and the JSON values exchanged with the
  upstream service.
*/
module Schemas {
  import opened Wrappers

  /** A JSON value as decoded from an upstream response body. Numbers are modelled as
      integers; nothing in the gateway looks at their value except through truthiness. */
  datatype JsonVal =
    | JNull
    | JBool(b: bool)
    | JNum(n: int)
    | JStr(str: string)
    | JArr(items: seq<JsonVal>)
    | JObj(fields: map<string, JsonVal>)

  /** Python truthiness of a decoded JSON value: `None`, `False`, zero and empty
      strings, lists and dicts are falsy. */
  predicate Truthy(v: JsonVal) {
    match v
    case JNull => false
    case JBool(b) => b
    case JNum(n) => n != 0
    case JStr(s) => s != []
    case JArr(items) => items != []
    case JObj(fields) => fields != map[]
  }

  /** The free-form `metadata` dictionary (a JSON object). */
  type Metadata = map<string, JsonVal>

  /** `CityRequest`: the body of a submission. */
  datatype CityRequest = CityRequest(city: string) {
    /** The schema's `min_length=1`: requests with an empty `city` are rejected by
        validation before the handler runs. */
    predicate Valid() { |city| >= 1 }
  }

  /** `BackendForwardResult`: what the backend client returns to the handler. */
  datatype ForwardResult = ForwardResult(normalizedCity: string, status: string, metadata: Option<Metadata>)

  /** `CityResponse`: the 200 body returned to the client. */
  datatype CityResponse = CityResponse(
    city: string,
    normalizedCity: string,
    backendStatus: string,
    metadata: Option<Metadata>)

  /** Constructing a `BackendForwardResult` from three decoded JSON values, as pydantic
      validates them: `normalized_city` and `status` must be strings, `metadata` must be
      null or an object. Any other value is a validation error, modelled as `None`. */
  function MakeForwardResult(normalizedCity: JsonVal, status: JsonVal, metadata: JsonVal): (r: Option<ForwardResult>)
    ensures r.Some? <==> normalizedCity.JStr? && status.JStr? && (metadata.JNull? || metadata.JObj?)
    ensures r.Some? ==>
      && r.value.normalizedCity == normalizedCity.str
      && r.value.status == status.str
      && r.value.metadata == (if metadata.JObj? then Some(metadata.fields) else None)
  {
    match (normalizedCity, status, metadata)
    case (JStr(n), JStr(s), JNull) => Some(ForwardResult(n, s, None))
    case (JStr(n), JStr(s), JObj(m)) => Some(ForwardResult(n, s, Some(m)))
    case _ => None
  }
}
