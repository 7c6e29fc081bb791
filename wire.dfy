/**
 * The websocket wire protocol between the simulated client and the relay
 * server: text frames holding JSON (RFC 8259) envelopes
 * `{"type": "connected"}`, `{"type": "start"}` and
 * `{"type": "media", "data": <base64>}`.
 *
 * JSON text itself is not modelled: a frame is either text that `json.loads`
 * rejects or the value it parses to, and a value the client builds with
 * `json.dumps` arrives at the server as that same value.
 */
module Wire {
  import opened Common
  import Base64

  /** A parsed JSON value. Numbers are kept as integers; only their presence matters here. */
  datatype Json =
    | JNull
    | JBool(b: bool)
    | JNumber(n: int)
    | JString(s: string)
    | JArray(items: seq<Json>)
    | JObject(members: map<string, Json>)

  /** One inbound text frame as the server's `json.loads` sees it. */
  datatype Frame = NotJson | Parsed(value: Json)

  const EVENT_TYPE_CONNECTED: string := "connected"
  const EVENT_TYPE_START: string := "start"
  const EVENT_TYPE_MEDIA: string := "media"

  /** `{"type": t}` */
  function Event(t: string): Json {
    JObject(map["type" := JString(t)])
  }

  /** `{"type": "media", "data": base64(chunk)}` */
  function MediaEvent(chunk: seq<byte>): Json {
    JObject(map["type" := JString(EVENT_TYPE_MEDIA), "data" := JString(Base64.Encode(chunk))])
  }

  /** `d.get(key)` on a JSON object. */
  function Get(members: map<string, Json>, key: string): Option<Json> {
    if key in members then Some(members[key]) else None
  }
}
