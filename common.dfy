/** Values shared by both serverless endpoints and the client store:
    an Option type, the decoded JSON value of a request body, and the
    shape of an HTTP response. */
module Common {

  datatype Option<+T> = None | Some(value: T)

  /** A decoded JSON value. Numbers are JavaScript doubles in the
      source; here they are exact reals. */
  datatype Json =
    | JNull
    | JBool(b: bool)
    | JNumber(n: real)
    | JString(s: string)
    | JArray(items: seq<Json>)
    | JObject(fields: map<string, Json>)

  /** Destructuring `const { name } = value` on a non-null value: an
      object gives its field, or `undefined` (None) when the field is
      missing; every other non-null value has no own fields. */
  function Field(value: Json, name: string): (r: Option<Json>)
    ensures r.Some? ==> value.JObject? && name in value.fields && r.value == value.fields[name]
    ensures value.JObject? && name in value.fields ==> r.Some?
  {
    match value
    case JObject(fields) => if name in fields then Some(fields[name]) else None
    case _ => None
  }

  /** The `{ valid, error? }` result of the request validators. */
  datatype Validation = Valid | Invalid(error: string)

  /** `response.ok` of the Fetch API: a status in the 2xx range. */
  predicate HttpOk(status: int) {
    200 <= status <= 299
  }

  /** The JSON bodies the two endpoints send back. */
  datatype Body =
    | ErrorBody(error: string, details: Option<string>)
    | TranscriptionBody(transcript: string, fillerWordCount: nat, wordCount: nat,
                        duration: real, confidence: real)
    | AnalysisBody(metrics: SpeechMetrics, feedback: Json)

  datatype SpeechMetrics = SpeechMetrics(fluencyScore: int, wordCount: nat, speechRate: int, fillerWordCount: real)

  datatype Response = Response(status: int, body: Body)

  /** An HTTP request as the endpoints see it: the two headers they read
      (None when absent) and the body, None when it is not JSON. */
  datatype Request = Request(authorization: Option<string>, forwardedFor: Option<string>, body: Option<Json>)

  /** Text of the exception that `req.json()` or destructuring a `null`
      body raises; the runtime's exact wording is not modelled. */
  const UnreadableBody: string := "request body could not be read"

  /** A body the handlers can destructure: JSON and not `null`. */
  predicate Readable(body: Option<Json>) {
    body.Some? && !body.value.JNull?
  }

  /** What both handlers answer when the gateway key is not configured. */
  const ConfigurationError: string := "Server configuration error"
}
