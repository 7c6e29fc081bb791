# Websocket audio relay: a Dafny model

This project models the sequential logic of a small real-time audio relay.

- **Client.** A simulated client (`sim_client.py`) opens a websocket. It sends `{"type": "connected"}`, waits for one reply and sends `{"type": "start"}`. It then sends the raw audio in 20000-byte slices, each base64-encoded in a `{"type": "media", "data": ...}` envelope.
- **Server loop.** The relay server (`sim_server.py`) acknowledges every inbound frame with "Connected to server successfully." before parsing it. It dispatches on the envelope's `"type"` and puts each decoded media payload on a process-wide FIFO `media_queue`.
- **Transcription requests.** A transcription thread turns that queue into a streaming-recognition request stream: one configuration request, then one audio request per queued chunk, until the queue is empty.
- **Dialogflow demo.** `streaming.py` sends a configuration request and then the audio file in `read(CHUNK_SIZE)` pieces. It also builds a session path and a regional endpoint option.
- **Event emitter.** `async_demo/test.py` has a handler table (event name to handler list), an `emit` that calls the handlers in order, and a `wait_for_next` one-shot future.

Modules:

- `Common`: `Option`, `Result`, `byte`, `Min`.
- `Base64`: `b64encode`, and `b64decode` with Python's default, non-validating behaviour, written as a character-by-character state machine. Non-ASCII text raises ValueError. Characters outside the alphabet are skipped. A `=` that completes a quad ends the decoding. Input that ends one data character into a quad raises binascii.Error, and so does input that ends two or three characters into a quad ("Incorrect padding"). The round trip `Decode(Encode(b)) == Ok(b)` is proved.
- `Chunking`: the fixed-size slicing shared by the client loop and the Dialogflow reader, with its round-trip, size, count and offset lemmas.
- `Wire`: the JSON envelope, as a parsed value (`Json`) or as text that is not JSON (`Frame.NotJson`).
- `SimServer`:
  - `Classify` is one iteration of the handler loop.
  - `Serve` is the loop over a frame stream. It stops at the first exception the handler does not catch.
  - `MediaQueue` is the `queue.Queue`.
  - `Handler` is the imperative loop, proved equal to `Serve`.
  - `CreateRequests` is the imperative drain, proved equal to `Requests`.
- `SimClient`: `ClientHandler`, the imperative send loop, proved equal to `ClientTrace`. It also holds the end-to-end lemma: everything the client sends reaches the server, the queue holds exactly the client's chunks in order, and those chunks concatenate to the audio.
- `Streaming`: `CHUNK_SIZE`, the session path, the client options, an `AudioFile` with regular-file `read` semantics, and `RequestGenerator`.
- `AsyncDemo`: `EventEmitter`, `Future` and the demo's `main` as `RunDemo`.

Behaviour the model keeps as the code has it, though a reader might expect otherwise:

- A frame whose `"type"` is unknown or missing is acknowledged and ignored, and the loop goes on to the next frame.
- A `"data"` field on a non-media envelope is never looked at.
- A media envelope whose `"data"` is not valid base64 is not dropped. `b64decode` raises `binascii.Error` (or `ValueError` for non-ASCII text). The `except (json.JSONDecodeError, KeyError)` clause does not catch these, so the handler's message loop ends. The model calls this outcome `Escaped`. The same holds for JSON that is not an object: `.get` raises AttributeError.
- The client sends its `start` event after reading the file. The reply it waits for is the server's acknowledgement of `connected`; its content is not interpreted.

## Model

| member | source | states |
|---|---|---|
| `Base64.Encode` | sim_client.py:51 | the encoding of n bytes has 4·ceil(n/3) characters, all from the base64 alphabet or '=' |
| `Base64.Decode` | sim_server.py:164 | decoding fails with the non-ASCII error exactly when the text contains a non-ASCII character |
| `Base64.A2b` | sim_server.py:164 | the character-level decoder only ever fails with a padding error, never with the non-ASCII one; its behaviour on '='-free text, on skipped characters, on padded final groups and on a '=' that does not complete a quad is stated by the lemmas below |
| `Base64.A2bSkipsNonAlphabet` | sim_server.py:164 | characters outside the alphabet, other than '=', are skipped wherever they appear: decoding is unchanged by removing them |
| `Base64.A2bWithoutPadding` | sim_server.py:164 | without '=', decoding raises binascii.Error exactly when the data characters do not fill whole quads, with the "1 more than a multiple of 4" error exactly when one is left over; on success every 4 data characters give 3 bytes |
| `Base64.PaddingEndsDecoding` | sim_server.py:164 | a '=' that completes the padded final group ends decoding: the encoding of b followed by any ASCII text decodes to b |
| `Base64.PaddedPair` | sim_server.py:164 | a final group of any two data characters followed by "==", canonical or not, gives one byte built from the first character's 6 bits and the top 2 bits of the second; the remaining bits are dropped and decoding ends there |
| `Base64.PaddedTriple` | sim_server.py:164 | a final group of any three data characters followed by "=", canonical or not, gives two bytes; the low 2 bits of the third character are dropped and decoding ends there |
| `Base64.StrayPadding` | sim_server.py:164 | a '=' that does not complete a quad is counted and decoding goes on: "QQ=Q==" gives [65, 4] and "QQ=Q" raises "Incorrect padding"; the non-canonical "QR==" gives [65] |
| `Base64.DecodeEncode` | sim_server.py:164 | `b64decode(b64encode(b)) == b` for every byte string: the server recovers exactly the client's chunk |
| `Base64.PaddingErrors` | sim_server.py:164 | one data character raises the "1 more than a multiple of 4" error; two unpadded or singly padded data characters raise "Incorrect padding"; "QQ==" decodes to one byte |
| `Chunking.Chunks` | sim_client.py:47-48 | no contract of its own: the slices `s[i:i+n]` for i = 0, n, 2n, ...; specified by `FlattenChunks`, `ChunkSizes`, `ChunkCount` and `ChunkAt` |
| `Chunking.FlattenChunks` | sim_client.py:47-48 | the slices `s[i:i+n]` at i = 0, n, 2n, ... concatenate back to `s` exactly |
| `Chunking.ChunkSizes` | sim_client.py:47-48 | every slice is non-empty and at most n long, and all but the last are exactly n long |
| `Chunking.ChunkCount` | sim_client.py:47 | the number of slices k is ceil(len/n), stated as (k-1)·n < len <= k·n; there are none for an empty buffer |
| `Chunking.ChunkAt` | sim_client.py:47-48 | slice j starts at offset j·n < len and is `s[j·n : j·n + n]`, clipped at the end, so offsets strictly increase with no overlap |
| `SimServer.Classify` | sim_server.py:149-171 | no contract of its own: one turn of the `try` block after the acknowledgement; specified by `EnqueuedIffWellFormedMedia`, `DroppedFrames`, `EscapingFrames` and `HandshakeAndOtherTypesLogged` |
| `SimServer.EnqueuedIffWellFormedMedia` | sim_server.py:161-165 | a frame puts something on the queue if and only if it is a JSON object of type "media" whose "data" is a decodable string, and what it puts there is `b64decode(data)` |
| `SimServer.DroppedFrames` | sim_server.py:149-171 | the frames caught and dropped are exactly text that is not JSON (JSONDecodeError) and media envelopes without "data" (KeyError) |
| `SimServer.EscapingFrames` | sim_server.py:151-171 | the frames whose exception escapes the loop are exactly JSON non-objects and media envelopes whose "data" is not a string or is not valid base64 |
| `SimServer.HandshakeAndOtherTypesLogged` | sim_server.py:152-160 | "connected" and "start" envelopes are only logged, whatever other members they carry; an envelope whose "type" is any other string, is not a string, or is missing is ignored; none of them touches the queue |
| `SimServer.MediaEventEnqueued` | sim_server.py:161-165 | a client media envelope is enqueued as exactly the chunk it encodes |
| `SimServer.Serve` | sim_server.py:146-171 | no contract of its own: the message loop over a frame stream; specified by `ServeAcknowledges`, `ServeQueuesWellFormedPayloads` and `ServeAppend`, and computed by `Handler` |
| `SimServer.ServeAcknowledges` | sim_server.py:146-171 | every frame read is acknowledged, escaping included; the loop reads every frame unless one escapes, and then it stops right after the first escaping frame |
| `SimServer.ServeQueuesWellFormedPayloads` | sim_server.py:146-171 | for any stream, mixed or not, the queue receives the decoded payload of every well-formed media envelope among the frames the loop reads, once each and in arrival order, and nothing else |
| `SimServer.ServeAppend` | sim_server.py:146-165 | serving two streams in sequence adds their acknowledgements and queues the first stream's chunks before the second's |
| `SimServer.ServeMediaStream` | sim_server.py:146-165 | over a stream of media envelopes the queue receives each payload once, in arrival order, and every frame is acknowledged |
| `SimServer.HandlerStep` | sim_server.py:146-171 | one turn of the loop either ends the run with the escaping exception after i + 1 acknowledgements, or keeps the run so far consistent with serving the remaining frames, with the turn's chunk appended when it is a media envelope |
| `SimServer.Acks` | sim_server.py:147 | n acknowledgements are n copies of "Connected to server successfully." |
| `SimServer.MediaQueue.constructor` | sim_server.py:28 | a new queue is empty |
| `SimServer.MediaQueue.Put` | sim_server.py:165 | `put` appends at the back, and the existing contents are unchanged |
| `SimServer.MediaQueue.Get` | sim_server.py:86-88 | `get` removes and returns the front item, or reports Empty and changes nothing when the queue is empty |
| `SimServer.Handler` | sim_server.py:146-171 | the imperative loop sends exactly `Serve`'s acknowledgements, appends exactly `Serve`'s chunks to the queue, and ends with `Serve`'s escaping fault |
| `SimServer.CONFIG_REQUEST` | sim_server.py:34-54 | the config request: recognizer `projects/hello-world-418507/locations/asia-south1/recognizers/_`, LINEAR16 at 44100 Hz on one channel, language en-US, model "long", voice activity events on |
| `SimServer.Requests` | sim_server.py:79-90 | no contract of its own: the request stream for a queue snapshot; specified by `RequestsShape` and computed by `CreateRequests` |
| `SimServer.RequestsShape` | sim_server.py:79-90 | the request stream is the config request, then one audio request per queued chunk in FIFO order, each exactly once; an empty queue gives the config request alone |
| `SimServer.CreateRequests` | sim_server.py:79-92 | draining the queue yields exactly `Requests(config, snapshot)` and leaves the queue empty |
| `Wire.Event` | sim_client.py:28 | no contract of its own: the envelope `{"type": t}` the client sends for `connected` and `start`; its handling is stated by `HandshakeAndOtherTypesLogged` |
| `Wire.MediaEvent` | sim_client.py:49-54 | no contract of its own: the envelope `{"type": "media", "data": b64encode(chunk)}`; `MediaEventEnqueued` states that the server enqueues exactly `chunk` |
| `SimClient.ClientTrace` | sim_client.py:25-55 | no contract of its own: the client's socket actions; `ClientHandler` computes it and `MediaSendsAt`, `MediaChunks` and `ClientFrames` state its shape |
| `SimClient.ClientHandler` | sim_client.py:25-56 | the client sends `connected`, receives once, sends `start`, then sends one media envelope per 20000-byte slice in offset order |
| `SimClient.RestStep` | sim_client.py:47-55 | from offset i, the next envelope carries `audio[i:i+20000]` and the rest start at i + 20000 |
| `SimClient.MediaSendsAt` | sim_client.py:47-55 | envelope j (after the three handshake steps) carries `audio[20000·j : 20000·j + 20000]` |
| `SimClient.MediaChunks` | sim_client.py:16-48 | there are ceil(len/20000) media envelopes; all slices but the last have 20000 bytes and the last has 1 to 20000; together they are the audio |
| `SimClient.TwoChunkExample` | sim_client.py:47-48 | 29421 bytes of audio go out as slices of 20000 and 9421 bytes |
| `SimClient.ClientFrames` | sim_client.py:25-55 | the server reads the `connected` and `start` events, then one media envelope per chunk; the client's `recv` sends nothing |
| `SimClient.ServeHandshake` | sim_server.py:155-159 | the `connected` and `start` frames are acknowledged twice and queue nothing |
| `SimClient.ServerReceivesAudio` | sim_client.py:47-55 | the server acknowledges every client frame without a fault; its queue holds exactly the client's slices in order, which concatenate to the audio; the transcription requests carry them in that order |
| `Streaming.ChunkSize` | streaming.py:10-13 | `CHUNK_SIZE` is 1 · 44100 · 2 = 88200 bytes |
| `Streaming.SessionPath` | streaming.py:38 | the session path is the agent, then "/sessions/", then the session id |
| `Streaming.SessionPathInjective` | streaming.py:33-38 | under one agent, two session ids give the same path if and only if they are equal |
| `Streaming.ClientOptions` | streaming.py:40-46 | "api_endpoint" is set, to location + "-dialogflow.googleapis.com:443", if and only if the location is not "global"; no other key is ever set |
| `Streaming.ConfigRequest` | streaming.py:78-82 | no contract of its own: the first request, with session, input audio config, language and output audio config; `RequestStream` states its fields |
| `Streaming.AudioRequest` | streaming.py:94-102 | no contract of its own: a request carrying one chunk and nothing else; `AudioRequestsAt` and `RequestStream` state its fields |
| `Streaming.AudioRequests` | streaming.py:94-102 | one request per chunk |
| `Streaming.AudioFile.constructor` | streaming.py:87 | a freshly opened file reads from offset 0 |
| `Streaming.AudioFile.Read` | streaming.py:90 | `read(n)` returns the next n bytes, fewer at the end of the file and none after it, and advances past them |
| `Streaming.RequestGenerator` | streaming.py:78-103 | the generator yields the config request, then one request per `read(CHUNK_SIZE)` until the first empty read |
| `Streaming.RequestStream` | streaming.py:78-102 | the first request has the session, input config, language and output config, and no audio; each later request carries only a non-empty chunk of at most 88200 bytes; all but the last are exactly 88200; the chunks concatenate to the file |
| `AsyncDemo.Latch` | async_demo/test.py:21-24 | no contract of its own: the resolver's `if not future.done(): future.set_result(arg)` on the future's result; specified by `ResolvedStays` and `LatchKeepsFirst` |
| `AsyncDemo.ResolvedStays` | async_demo/test.py:21-24 | a resolved future keeps its value through any later emits |
| `AsyncDemo.LatchKeepsFirst` | async_demo/test.py:21-24 | the `wait_for_next` future holds the first value emitted after registration, and nothing before any emit |
| `AsyncDemo.Future.constructor` | async_demo/test.py:19 | a new future is pending |
| `AsyncDemo.Future.Resolve` | async_demo/test.py:21-24 | the resolver sets the result only if the future is still pending |
| `AsyncDemo.EventEmitter.constructor` | async_demo/test.py:5-6 | a new emitter has no handlers |
| `AsyncDemo.EventEmitter.On` | async_demo/test.py:8-11 | `on` makes the list for the name its old list (or the empty list) with the handler appended; every other name keeps its list |
| `AsyncDemo.EventEmitter.Emit` | async_demo/test.py:13-16 | `emit` calls exactly the handlers registered under the name, once per registration and in order, and calls none for an unknown name; it leaves the table unchanged; every future it reaches is latched with the emitted value |
| `AsyncDemo.EventEmitter.WaitForNext` | async_demo/test.py:18-27 | `wait_for_next` creates a pending future and permanently appends its resolver, so the list grows by one |
| `AsyncDemo.RunDemo` | async_demo/test.py:30-57 | the demo prints "weiyih2" then "weiyih1", and the two futures receive "Hello, World!" and "weiyih" |

## Left out

- Websocket transport and connection lifecycle: `websockets.serve`/`connect`, the asyncio event loop, `ConnectionClosed`, and closing at the end of the stream. Frames arrive as a given sequence, and the client's side is a trace of sends and receives.
- `json.loads`/`json.dumps` themselves. A frame is either "not JSON" or its parsed value, and a value the client dumps arrives as the same value. JSON numbers are integers. Binary frames are not modelled.
- The Google Speech v2 and Dialogflow CX clients: `streaming_recognize`, the response logging loop, `streaming_detect_intent`, response printing and writing `output.wav`. These are foreign services. Only the requests sent to them are modelled.
- `parse_agent_path`: `Streaming.ClientOptions` takes the agent's location as a parameter.
- pyaudio playback, in both the handler and `play_audio_thread`. This is device I/O.
- Threads and timeouts. A queue `get` that would time out is a `get` on an empty queue. The drain therefore works on a snapshot of the queue, and items put concurrently during the drain are not modelled. The `except Exception` branch of `create_requests` is left out, because `get` raises nothing but `queue.Empty` here.
- Pacing sleeps and wall-clock arithmetic: `sleep(0.1)` in the client, and `END_OF_INPUT_TIME` with its `time.sleep` in the Dialogflow generator.
- WAV and file I/O. The client's audio is a given byte sequence, and the Dialogflow file is a given byte sequence read through `Streaming.AudioFile`.
- Base64.A2b: what a '=' does outside a padded final group is stated only by the `StrayPadding` examples and otherwise given by the definition alone: a '=' after fewer than two data characters of a quad is skipped, and one that does not yet complete the quad is counted and decoding goes on. No general lemma covers these cases.
- Session ids: `uuid.uuid4()` is a parameter.
- `AsyncDemo`: the asyncio `Future`/`await` scheduling is not modelled. The demo registers both `wait_for_next` handlers before either emit, as the one-second sleeps in `main` arrange.
- `AsyncDemo`: print callbacks are recorded by the line they print, and `emit` returns the handlers it called.
- `AsyncDemo.RunDemo`: `main`'s own four prints (the two "Waiting for ..." lines and the two "Received ..." lines) are not modelled; `RunDemo` returns the callbacks' lines and the two futures' values instead.
- `async_demo/server.py` and `async_demo/client.py` are not part of this model. They concern broadcast over concurrent sockets.
