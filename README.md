# Homilia back end — a Dafny model of its two request handlers

The back end is a small Flask service with two endpoints.

- `POST /homilia` takes `{"data": "DD/MM/YYYY"}` and validates the body and the date. It re-encodes the date as `DD/MM/YYYY` with zero padding and asks a Gemini model for a homily in JSON. It returns the parsed JSON, or one of two fallback records when the reply is not JSON or the call fails.
- `POST /chat` takes `{"pergunta": ...}` and asks a Gemini model for a free-text answer. It returns the answer with surrounding whitespace stripped.

This project models the decision logic of both handlers as pure functions over datatypes:

- what comes back (status and JSON payload) for every request body and every outcome of the generation call;
- which calls to the service are made.

The modules are:

- `Wrappers`: the `Option` type shared by the date parser and the homily record.
- `JsonValue`: decoded JSON values, Python truthiness and `dict.get`.
- `PyText`: `str.strip()`, written as CPython's two index scans, with an independent description of its result (`IsStripOf`) and a proof that the description is unique.
- `Calendar`: `datetime.strptime(s, '%d/%m/%Y').date()` and `date.strftime('%d/%m/%Y')`.
  - The parser splits the text at its first two slashes. It is proved equal to the regular language CPython's `_strptime` builds: `%d` is `3[01]|[12]\d|0[1-9]|[1-9]| [1-9]`, `%m` is `1[0-2]|0[1-9]|[1-9]`, `%Y` is `\d\d\d\d`, and the match must consume the whole text. The date must also be valid in the proleptic Gregorian calendar, from year 1 on.
  - Proved properties include the parse/format round trip, idempotent normalisation and the exact characterisation of its fixed points.
- `Upstream`: the boundary types.
  - `Body` is what `request.get_json()` yields, or `Undecodable` when it raises.
  - `Call` is one `generate_content` call. Its prompt is reduced to the request data it embeds.
  - `UpstreamResult` is `Text(t)`, `DecodeFault` (the call itself raises `json.JSONDecodeError`) or `Fail` (any other exception).
  - `Response` is a status and a payload. `Exchange` is a response plus the list of calls made.
- `HomilyEndpoint`: `criar_homilia` (`CreateHomily`), the validation part of `make_homilia` (`ValidateHomily`) and the whole handler (`MakeHomily`).
- `ChatEndpoint`: `chat` (`Chat`).

The generation service is a function parameter `generate: Call -> UpstreamResult`. A reply whose `.text` is missing is a `Fail`, like any exception other than `JSONDecodeError`. `json.loads` is a parameter `parseJson: string -> Option<Json>`, with `None` where it raises `JSONDecodeError`. "No call to the service" is stated as `calls == []`.

The model follows the code where its behaviour differs from what the endpoints appear to promise:

- The chat question is not trimmed. Any truthy JSON value is accepted as a question and embedded in the prompt as it is.
- A `/chat` body that is `null`, a list or a scalar is a 500, not a 400, because it has no `.get`.
- A truthy non-string `"data"` on `/homilia` is a 500, not a 400: `strptime` raises `TypeError`, which `except ValueError` does not catch.
- The empty object `{}` gets the "invalid body" message, not the "missing field" one.
- A parsed homily reply is passed through with no check of its shape.
- `/homilia` error replies use the key `error`. `/chat` uses `erro`.
- On `/homilia`, a `JSONDecodeError` raised by the call itself (not by the `json.loads` at app.py:71) is a 500. Its handler at app.py:75-77 reads `response`, which was never assigned, and the resulting `UnboundLocalError` escapes to the outer handler at app.py:118-120. On `/chat` such a fault is a 500 like any other.

## Model

| member | source | states |
|---|---|---|
| `PyText.Strip` | app.py:68 | the result has no whitespace at either end and is a slice of the input with only whitespace outside it |
| `PyText.StripUnique` | app.py:141 | any text meeting that description equals `Strip`, so the description determines `str.strip()` completely |
| `PyText.StripOfStripped` | app.py:141 | a text with no surrounding whitespace is returned unchanged |
| `PyText.StripIdempotent` | app.py:141 | stripping twice is stripping once |
| `Calendar.ParseDate` | app.py:110 | every accepted text yields a valid proleptic Gregorian date with year 1 to 9999 |
| `Calendar.ParseDateOfMatch` | app.py:110 | a text matching the `%d/%m/%Y` pattern is accepted exactly when its fields form a calendar date, and yields that date |
| `Calendar.ParsedFields` | app.py:110 | every accepted text is a whole-string match of the pattern, and its date is the one the match's fields give |
| `Calendar.ParseDateAccepts` | app.py:109-112 | `strptime` accepts a text iff it is a match of the pattern naming a valid date (both directions) |
| `Calendar.ParseDateOfSplit` | app.py:110 | a text cut at two slashes outside its first two parts is parsed from exactly those parts |
| `Calendar.FormatYear` | app.py:115 | `%Y` gives four characters exactly for years from 1000 on |
| `Calendar.FormatDate` | app.py:115 | the re-encoding has the canonical `DD/MM/YYYY` shape exactly when the year has four digits |
| `Calendar.NormaliseDate` | app.py:110-115 | normalisation succeeds exactly when `strptime` accepts, and gives canonical text for four-digit years |
| `Calendar.ParseFormatDate` | app.py:110-115 | parsing the re-encoding of a valid date with year at least 1000 gives the same date back |
| `Calendar.FormatShortYearRejected` | app.py:110-115 | the re-encoding of a date before year 1000 is not itself accepted |
| `Calendar.NormaliseIdempotent` | app.py:110-115 | normalising a normalised date (four-digit year) changes nothing |
| `Calendar.NormaliseFixpoint` | app.py:110-115 | a text is its own normal form iff it is accepted and has the canonical shape (both directions) |
| `Calendar.NormaliseCanonical` | app.py:110-115 | an accepted canonical text round-trips unchanged |
| `Calendar.NormalisePadsFields` | app.py:110-115 | for years from 1000 on, normalisation only zero-pads the day and month fields and keeps the year text |
| `Calendar.LeapDayAccepted` | app.py:110 | `29/02/Y` is accepted iff Y is at least 1 and a Gregorian leap year |
| `Calendar.DayBeyondMonthRejected` | app.py:110-112 | a day past the end of its month (31/02, 31/04) is refused, not clamped |
| `Calendar.YearZeroRejected` | app.py:110-112 | year `0000` is refused |
| `Calendar.NoSeparatorRejected` | app.py:110-112 | a text with no `/`, such as `2024-12-25`, is refused |
| `Calendar.TrailingDataRejected` | app.py:110-112 | anything appended to an accepted text makes it refused |
| `Calendar.ShortYearRejected` | app.py:110-112 | a year not written with four characters (a two-digit year) is refused |
| `HomilyEndpoint.HomilyRecord.ToJson` | app.py:78-96 | the record's dict has the five content keys, plus `erro` exactly when an alert is set |
| `HomilyEndpoint.CreateHomily` | app.py:61-96 | an exception escapes exactly when the call raises `JSONDecodeError`; any other failed call, or a reply that is not JSON, gives a fallback record with empty content and a non-empty alert |
| `HomilyEndpoint.ParsedReplyPassedThrough` | app.py:68-73 | a reply that parses is returned verbatim, with no check of its shape |
| `HomilyEndpoint.MalformedReplyFallback` | app.py:75-85 | a reply that is not JSON gives the record titled "Erro ao interpretar a homilia" |
| `HomilyEndpoint.UpstreamFaultFallback` | app.py:87-96 | a call failing with anything but `JSONDecodeError` gives the record titled "Erro ao gerar a homilia" |
| `HomilyEndpoint.FallbackRecordsDistinct` | app.py:78-96 | both fallbacks have the fallback shape and the same keys, and differ in title and in alert |
| `HomilyEndpoint.ValidateHomily` | app.py:101-112 | a body is accepted iff it is an object whose "data" is a string `strptime` accepts; the accepted date text is its normalisation; a refusal is 400 or 500 with an `error` payload |
| `HomilyEndpoint.MakeHomily` | app.py:99-120 | the status is 200, 400 or 500; at most one call is made, and one is made exactly when validation passes; the status is 200 exactly when validation passes and the call does not raise `JSONDecodeError`; every other status carries an `error` payload; every call is in JSON mode with the homily prompt |
| `HomilyEndpoint.UndecodableBodyIsInternalError` | app.py:99-120 | a body `get_json()` cannot decode gives the internal-error 500 and no call |
| `HomilyEndpoint.BadBodyRejected` | app.py:101-103 | a falsy or non-object body gives 400 with the "invalid body" message and no call |
| `HomilyEndpoint.EmptyObjectIsInvalidBody` | app.py:102-103 | `{}` gets the "invalid body" message, not the "missing field" one |
| `HomilyEndpoint.MissingDateRejected` | app.py:105-107 | a non-empty object with absent or falsy "data" gives 400 with the "missing field" message and no call |
| `HomilyEndpoint.BadDateRejected` | app.py:109-112 | a date string `strptime` refuses gives 400 with the `DD/MM/YYYY` message and no call |
| `HomilyEndpoint.NonStringDateIsInternalError` | app.py:109-120 | a truthy non-string "data" gives the internal-error 500 and no call |
| `HomilyEndpoint.ValidDateGenerates` | app.py:109-116 | an accepted date makes exactly one call, embedding the normalised (canonical for four-digit years) date; unless that call raises `JSONDecodeError`, the response is 200 with exactly what `criar_homilia` returned |
| `HomilyEndpoint.CallDecodeFaultIsInternalError` | app.py:61-77 | a `JSONDecodeError` raised by the call itself escapes `criar_homilia` and gives the internal-error 500 |
| `HomilyEndpoint.StatusIndependentOfUpstream` | app.py:115-120 | the calls never depend on the service; the status does not either while no call raises `JSONDecodeError`, so a failed call or a reply that is not JSON never gives 500 |
| `HomilyEndpoint.ServerErrorCases` | app.py:99-120 | the status is 500 iff the body is undecodable, "data" is truthy but not a string, or the date is accepted and the call raises `JSONDecodeError` (both directions) |
| `ChatEndpoint.Chat` | app.py:124-146 | the status is 200, 400 or 500; at most one call; a 400 makes no call; a 200 carries exactly the stripped reply of its one call; errors carry an `erro` payload; calls embed a truthy question in free-text mode |
| `ChatEndpoint.MissingQuestionRejected` | app.py:127-130 | an absent or falsy question gives 400 "Pergunta não fornecida." and no call |
| `ChatEndpoint.BodyWithoutGetFails` | app.py:126-127 | an undecodable body or one that is not an object gives 500 "Erro ao gerar resposta." and no call |
| `ChatEndpoint.UpstreamFaultFails` | app.py:136-146 | a call that raises anything gives 500 "Erro ao gerar resposta." |
| `ChatEndpoint.AnswerIsStrippedReply` | app.py:136-142 | a successful call gives 200 with the reply stripped, and the answer has no surrounding whitespace |
| `ChatEndpoint.StrippedReplyVerbatim` | app.py:141-142 | a reply with no surrounding whitespace is returned verbatim |
| `ChatEndpoint.BlankQuestionAsked` | app.py:127-134 | a whitespace-only question is not trimmed: it passes the check and is embedded as sent |
| `ChatEndpoint.ServerErrorCases` | app.py:124-146 | the status is 500 iff the body has no `.get`, or a question was sent and the call raised (both directions) |

## Left out

- Flask routing, `jsonify`, CORS, `load_dotenv`/`os.getenv`, `genai.Client` construction and `app.run` are framework wiring and are not modelled. The client is represented only by the `generate` parameter. The client library is not part of this model. That its call can raise `JSONDecodeError` (when the body of the service's HTTP reply is not JSON) is what `DecodeFault` stands for.
- The wording of both prompts is not modelled. A prompt is reduced to the date or question it embeds.
- The JSON grammar of `json.loads` is not modelled. It is the `parseJson` parameter. An exception from `json.loads` other than `JSONDecodeError` (such as `RecursionError`) would give the "unexpected error" record; the parameter cannot express that case.
- Flask's own body decoding is not modelled. When `get_json()` raises (wrong content type, undecodable text), the body is `Undecodable`, which both handlers turn into a 500.
- `print` logging has no functional effect on a UTF-8 stdout; an encoding failure of the log line (which would escape to the internal-error 500) is left out.
- JSON numbers are modelled as `real`. `NaN` and infinities, which `json.loads` also accepts, are not represented.
- `Calendar.ParseDate` matches ASCII digits only. Python's `\d` also matches other Unicode decimal digits; that is not modelled.
- `Calendar.FormatYear` writes years below 1000 without padding, as the C library of Linux does. Other C libraries, and some Python versions, pad to four digits, so the round-trip and idempotence lemmas and `Calendar.NormalisePadsFields` are stated only for years from 1000 on.
- `Calendar.FormatShortYearRejected` and the "only if" direction of `Calendar.NormaliseFixpoint` hold only with that unpadded `%Y`. With a four-digit `%Y`, a date such as `01/01/0999` would be its own normal form.
- `Calendar.ParseDate` models the regular expressions of `_strptime` for this one format only. Other directives and locale handling are not part of this model.
