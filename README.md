# City gateway: request validation and forward-with-fallback

This project models the decision logic of `InputHandlingService`, a one-endpoint HTTP
gateway. `POST /api/city/submit` takes a city name, strips it and rejects a blank one. It
then forwards the city to an upstream service through `BackendClient.forward_city` and
relays the answer. The backend client posts `{city, source?}` to
`<base URL>/api/city/process`. When that exchange fails in any way, the client returns a
locally built mock result instead of failing.

Modules (one per source file, plus helpers):

- `Wrappers` (`wrappers.dfy`): `Option` and `Result`.
- `Text` (`text.dfy`): the Python string built-ins the code uses: `str.strip()`,
  `str.title()` and `str.rstrip("/")`. They are defined over ASCII (see below).
- `Schemas` (`schemas.dfy`): `CityRequest`, `BackendForwardResult` (here
  `ForwardResult`), `CityResponse`, the JSON values exchanged with the upstream, and
  pydantic's validation when a `BackendForwardResult` is constructed.
- `Forwarder` (`backend_client.dfy`): class `BackendClient` with its constructor and
  `ForwardCity`, and the functions that specify it: `Payload`, `OutboundRequest`,
  `FromUpstream`, `MockResult`, `Forwarded`.
- `CityRouter` (`city_router.dfy`): `SubmitCity` (the handler), and the lemmas that
  compose it with the backend client.

Modelling decisions:

- The HTTP exchange is a parameter `post: Request -> Outcome`. `Outcome` is `Failed` or
  `Received(json)`. `Failed` covers a connection error or timeout, a non-2xx status
  rejected by `raise_for_status`, and a body that is not JSON. `Received` carries the
  decoded body, whatever its shape.
- A body that is not a JSON object has no `.get`, so it raises and is caught. Pydantic
  rejects a truthy `normalized_city` that is not a string, a `status` that is not a
  string, and a `metadata` that is neither null nor an object. Each of these raises
  inside the guarded block, so each also yields the mock result. The model assumes
  pydantic 2 semantics: a number is not coerced to a string.
- The injected backend client is a parameter `forward` of the handler. It yields
  `Returned(result)` or `Raised(message)`. `ClientForward` is the `forward` that a real
  `BackendClient` provides: in it, `Raised` never occurs.
- ASCII assumption: whitespace is Python's ASCII whitespace (9-13, 28-31 and 32), and the
  cased characters are the ASCII letters. The model treats any other character as
  uncased and not whitespace.
- The schema's `min_length=1` is a precondition of `SubmitCity`. Request validation
  rejects an empty `city` with 422 before the handler runs, so the handler's 400 is
  reachable only for a non-empty, whitespace-only city.
- The client falls back on every exception inside its `try`: a failed exchange, a body
  that is not a JSON object, and the schema rejecting the upstream's fields.

## Model

| member | source | states |
|---|---|---|
| `Text.Strip` | InputHandlingService/src/routers/city.py:46 | the stripped city is the text between a whitespace-only prefix and a whitespace-only suffix; it has no whitespace at either end; it is empty exactly when the input is all whitespace |
| `Text.StripPadded` | InputHandlingService/src/routers/city.py:46 | stripping whitespace padding placed around text that has no whitespace at its ends gives that text back |
| `Text.StripIdempotent` | InputHandlingService/src/services/backend_client.py:73 | stripping an already stripped city changes nothing (the handler strips before the client strips again) |
| `Text.Title` | InputHandlingService/src/services/backend_client.py:73 | title-casing keeps the length; a letter at the start or after a non-letter is uppercased, any other letter is lowercased, other characters are unchanged |
| `Text.RStripSlash` | InputHandlingService/src/services/backend_client.py:24 | the stored base URL is a prefix of the configured one, only slashes were removed, and it does not end in a slash |
| `Text.RStripSlashIgnoresExtraSlashes` | InputHandlingService/src/services/backend_client.py:24 | extra trailing slashes on the configured base URL do not change the stored one |
| `Schemas.MakeForwardResult` | InputHandlingService/src/schemas/city.py:13-20 | a result is built exactly when `normalized_city` and `status` are strings and `metadata` is null or an object; its fields are those values |
| `Forwarder.Payload` | InputHandlingService/src/services/backend_client.py:54-56 | the body maps "city" to the city; it holds "source" exactly when a non-empty source was given, mapped to that source; it has no other key |
| `Forwarder.RequestUrlNormalised` | InputHandlingService/src/services/backend_client.py:24-31 | the client sends the same request (URL and payload) whatever trailing slashes the configured base URL has |
| `Forwarder.MockResult` | InputHandlingService/src/services/backend_client.py:72-76 | the mock result passes the schema check, so building it cannot raise; its fields are `Title(Strip(city))`, "ok" and the note |
| `Forwarder.FallbackUnlessAccepted` | InputHandlingService/src/services/backend_client.py:69-76 | any outcome that is not accepted (failed exchange, non-object body, rejected field) gives exactly `Title(Strip(city))`, status "ok" and the note "Backend not reachable; returned mock response." |
| `Forwarder.AcceptedFields` | InputHandlingService/src/services/backend_client.py:59-68 | an accepted outcome gives the upstream `normalized_city` when present and truthy, else `Title(Strip(city))`; the upstream `status` when present, else "ok"; the upstream `metadata` when present and an object, else none |
| `Forwarder.NormalizedNonEmpty` | InputHandlingService/src/services/backend_client.py:59-76 | for a city that is not blank, the normalized name is non-empty whatever the upstream does |
| `Forwarder.UpstreamParisExample` | InputHandlingService/src/services/backend_client.py:59-68 | the upstream answer `{"normalized_city": "Paris", "status": "ok"}` for "paris " is passed through with no metadata |
| `Forwarder.BackendClient.constructor` | InputHandlingService/src/services/backend_client.py:16-25 | the stored base URL is the configured one with trailing slashes removed, and it ends in no slash; the timeout is stored as given (default 10 seconds) |
| `Forwarder.BackendClient.ForwardCity` | InputHandlingService/src/services/backend_client.py:38-76 | sends exactly the request `OutboundRequest` describes (URL and payload) and returns what `Forwarded` gives for its outcome; the normalized name is non-empty for a city that is not blank |
| `CityRouter.SubmitCity` | InputHandlingService/src/routers/city.py:24-67 | 400 with "City must be a non-empty string." exactly when the city is all whitespace; 502 with "Backend communication failed: " and the message exactly when the forwarder raises; a response exactly when the city is not blank and the forwarder returns, and then a response whose city is the stripped input (non-empty, no surrounding whitespace) and whose other fields are copied from the forwarder's result |
| `CityRouter.BlankCitySkipsForwarder` | InputHandlingService/src/routers/city.py:46-51 | for a blank city the answer does not depend on the forwarder at all |
| `CityRouter.ForwarderConsultedOnce` | InputHandlingService/src/routers/city.py:53-54 | the answer depends on the forwarder only through its value at the stripped city and the unchanged source |
| `CityRouter.SubmitThroughClient` | InputHandlingService/src/routers/city.py:53-67 | through a real backend client the 502 branch is unreachable: the answer is the 400 for a blank city, and otherwise a success whose city is the stripped input and whose normalized name is non-empty |
| `CityRouter.SubmitFallback` | InputHandlingService/src/routers/city.py:62-67 | when the upstream outcome is not accepted, the response's normalized name is the title-cased response city, status "ok", with the mock note |
| `CityRouter.TokyoUnreachableExample` | InputHandlingService/src/routers/city.py:46-67 | `"  tokyo "` with an unreachable upstream gets city "tokyo", normalized name "Tokyo", status "ok" and the mock note |

## Left out

- The HTTP exchange in `_post_json`: `httpx.AsyncClient`, the timeout, `async`/`await` and `asyncio.sleep(0)`. This is network I/O and cooperative scheduling; the parameter `post` stands in for it, and the timeout is only stored.
- `BaseException`s such as task cancellation, which escape both `try` blocks. This is a concurrency concern.
- `CityRouter.ForwarderConsultedOnce`: "exactly one call" is stated as dependence on one argument pair. A pure model cannot count calls to a pure function.
- `get_backend_client` (dependency injection) and `core/settings.py`. These are configuration constants; the base URL and the upstream are parameters.
- `api/main.py` (app factory, CORS, the constant health check), `core/errors.py` (framework exception handlers) and `run.py` (server startup). These are framework wiring.
- Pydantic's field-validation internals and FastAPI's 422 for a missing or empty `city`. Only `min_length=1` is kept, as a precondition.
- `Text.Strip`, `Text.Title`: full Unicode semantics of `str.strip()` and `str.title()`. Characters such as `ß` can change length under `title()`; the model is restricted to ASCII.
- JSON floating-point numbers. Numbers are integers; only their truthiness matters here.
- The text of `str(exc)` for a forwarder exception. It is an abstract message.
