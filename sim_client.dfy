/**
 * The simulated capture device: it opens one websocket connection, performs the
 * `connected` / acknowledgement / `start` handshake and sends the audio as
 * base64 media envelopes of at most 20000 bytes each.
 */
module SimClient {
  import opened Common
  import opened Wire
  import opened Chunking
  import Base64
  import SimServer

  /** Bytes of audio per media envelope. */
  const CHUNK_SIZE: nat := 20000

  /** One step of the client's side of the conversation. */
  datatype Action = Send(message: Json) | Receive

  /** One `send` of a media envelope per chunk, in order. */
  function MediaSends(chunks: seq<seq<byte>>): seq<Action> {
    if chunks == [] then [] else [Send(MediaEvent(chunks[0]))] + MediaSends(chunks[1..])
  }

  /** Everything `client_handler` does with the socket for the audio `audio`. */
  function ClientTrace(audio: seq<byte>): seq<Action> {
    [Send(Event(EVENT_TYPE_CONNECTED)), Receive, Send(Event(EVENT_TYPE_START))]
    + MediaSends(Chunks(audio, CHUNK_SIZE))
  }

  /** What is left of the audio from offset `i` on. */
  function Rest(audio: seq<byte>, i: nat): seq<byte> {
    if i < |audio| then audio[i..] else []
  }

  /** The envelopes still to send from offset `i` are the one for the slice at `i`,
      then those from offset `i + 20000`. */
  lemma RestStep(audio: seq<byte>, i: nat)
    requires i < |audio|
    ensures MediaSends(Chunks(Rest(audio, i), CHUNK_SIZE))
         == [Send(MediaEvent(audio[i..Min(i + CHUNK_SIZE, |audio|)]))]
            + MediaSends(Chunks(Rest(audio, i + CHUNK_SIZE), CHUNK_SIZE))
  {
    var rest := audio[i..];
    var k := Min(CHUNK_SIZE, |rest|);
    ChunksCons(rest, CHUNK_SIZE);
    assert rest[..k] == audio[i..Min(i + CHUNK_SIZE, |audio|)];
    assert rest[k..] == Rest(audio, i + CHUNK_SIZE);
    var cs := Chunks(rest, CHUNK_SIZE);
    assert cs[0] == audio[i..Min(i + CHUNK_SIZE, |audio|)];
    assert cs[1..] == Chunks(Rest(audio, i + CHUNK_SIZE), CHUNK_SIZE);
  }

  /**
   * `client_handler`: send `connected`, wait for one message, send `start`, then for
   * i = 0, 20000, 40000, ... below `len(audio_data)` send the base64 of
   * `audio_data[i:i + 20000]` as a media envelope.
   */
  method ClientHandler(audio: seq<byte>) returns (trace: seq<Action>)
    ensures trace == ClientTrace(audio)
  {
    trace := [Send(Event(EVENT_TYPE_CONNECTED))];
    trace := trace + [Receive];
    trace := trace + [Send(Event(EVENT_TYPE_START))];
    var i := 0;
    while i < |audio|
      invariant trace + MediaSends(Chunks(Rest(audio, i), CHUNK_SIZE)) == ClientTrace(audio)
      decreases |audio| - i
    {
      var chunk := audio[i..Min(i + CHUNK_SIZE, |audio|)];
      var encoded := Base64.Encode(chunk);
      var mediaEvent := JObject(map["type" := JString(EVENT_TYPE_MEDIA), "data" := JString(encoded)]);
      assert mediaEvent == MediaEvent(chunk);
      RestStep(audio, i);
      trace := trace + [Send(mediaEvent)];
      i := i + CHUNK_SIZE;
    }
  }

  /** The media envelopes go out in order of increasing offset: envelope `j` carries
      `audio[20000 * j .. 20000 * (j + 1)]` (cut short at the end of the audio). */
  lemma {:induction false} MediaSendsAt(audio: seq<byte>, j: nat)
    requires j < |Chunks(audio, CHUNK_SIZE)|
    ensures |ClientTrace(audio)| == 3 + |Chunks(audio, CHUNK_SIZE)|
    ensures j * CHUNK_SIZE < |audio|
    ensures ClientTrace(audio)[3 + j] == Send(MediaEvent(audio[j * CHUNK_SIZE .. Min(j * CHUNK_SIZE + CHUNK_SIZE, |audio|)]))
  {
    var cs := Chunks(audio, CHUNK_SIZE);
    MediaSendsIndex(cs, j);
    ChunkAt(audio, CHUNK_SIZE, j);
    assert ClientTrace(audio)[3 + j] == MediaSends(cs)[j];
  }

  lemma {:induction false} MediaSendsIndex(chunks: seq<seq<byte>>, j: nat)
    requires j < |chunks|
    ensures |MediaSends(chunks)| == |chunks|
    ensures MediaSends(chunks)[j] == Send(MediaEvent(chunks[j]))
    decreases |chunks|
  {
    if j > 0 {
      MediaSendsIndex(chunks[1..], j - 1);
    } else if |chunks| > 1 {
      MediaSendsIndex(chunks[1..], 0);
    }
  }

  /** The number of media envelopes is `ceil(len(audio_data) / 20000)`; none for empty
      audio. Every chunk but the last is 20000 bytes, the last 1 to 20000 bytes, and
      together they are the audio. */
  lemma MediaChunks(audio: seq<byte>)
    ensures |Chunks(audio, CHUNK_SIZE)| == (|audio| + CHUNK_SIZE - 1) / CHUNK_SIZE
    ensures forall i :: 0 <= i < |Chunks(audio, CHUNK_SIZE)| ==> 0 < |Chunks(audio, CHUNK_SIZE)[i]| <= CHUNK_SIZE
    ensures forall i :: 0 <= i < |Chunks(audio, CHUNK_SIZE)| - 1 ==> |Chunks(audio, CHUNK_SIZE)[i]| == CHUNK_SIZE
    ensures Flatten(Chunks(audio, CHUNK_SIZE)) == audio
  {
    ChunkCount(audio, CHUNK_SIZE);
    ChunkSizes(audio, CHUNK_SIZE);
    FlattenChunks(audio, CHUNK_SIZE);
  }

  /** 29421 bytes of audio go out as chunks of 20000 and 9421 bytes. */
  lemma TwoChunkExample(audio: seq<byte>)
    requires |audio| == 29421
    ensures |Chunks(audio, CHUNK_SIZE)| == 2
    ensures |Chunks(audio, CHUNK_SIZE)[0]| == 20000 && |Chunks(audio, CHUNK_SIZE)[1]| == 9421
  {
    MediaChunks(audio);
  }

  /** The frames the server receives: each `send`, parsed back by `json.loads`. */
  function SentFrames(trace: seq<Action>): seq<Frame> {
    if trace == [] then []
    else (match trace[0] case Send(m) => [Parsed(m)] case Receive => []) + SentFrames(trace[1..])
  }

  lemma {:induction false} SentFramesAppend(a: seq<Action>, b: seq<Action>)
    ensures SentFrames(a + b) == SentFrames(a) + SentFrames(b)
    decreases |a|
  {
    if a == [] {
      assert a + b == b;
    } else {
      assert (a + b)[0] == a[0];
      assert (a + b)[1..] == a[1..] + b;
      SentFramesAppend(a[1..], b);
    }
  }

  lemma {:induction false} SentMediaFrames(chunks: seq<seq<byte>>)
    ensures SentFrames(MediaSends(chunks)) == SimServer.MediaFrames(chunks)
    decreases |chunks|
  {
    if chunks != [] {
      SentMediaFrames(chunks[1..]);
      SentFramesAppend([Send(MediaEvent(chunks[0]))], MediaSends(chunks[1..]));
      assert SentFrames([Send(MediaEvent(chunks[0]))]) == [Parsed(MediaEvent(chunks[0]))];
    }
  }

  /** The two handshake frames are acknowledged and only logged. */
  lemma ServeHandshake()
    ensures SimServer.Serve([Parsed(Event(EVENT_TYPE_CONNECTED)), Parsed(Event(EVENT_TYPE_START))])
         == SimServer.Run(2, [], None)
  {
    var hs := [Parsed(Event(EVENT_TYPE_CONNECTED)), Parsed(Event(EVENT_TYPE_START))];
    SimServer.HandshakeAndOtherTypesLogged("", map[]);
    assert hs[1..] == [Parsed(Event(EVENT_TYPE_START))];
    assert hs[1..][1..] == [];
    assert SimServer.Serve(hs[1..]) == SimServer.Run(1, [], None);
  }

  /** The frames the server reads from the client: the two handshake events, then one
      media envelope per chunk. */
  lemma ClientFrames(audio: seq<byte>)
    ensures SentFrames(ClientTrace(audio))
         == [Parsed(Event(EVENT_TYPE_CONNECTED)), Parsed(Event(EVENT_TYPE_START))]
          + SimServer.MediaFrames(Chunks(audio, CHUNK_SIZE))
  {
    var cs := Chunks(audio, CHUNK_SIZE);
    var handshake := [Send(Event(EVENT_TYPE_CONNECTED)), Receive, Send(Event(EVENT_TYPE_START))];
    SentFramesAppend(handshake, MediaSends(cs));
    assert handshake[1..] == [Receive, Send(Event(EVENT_TYPE_START))];
    assert handshake[1..][1..] == [Send(Event(EVENT_TYPE_START))];
    assert handshake[1..][1..][1..] == [];
    assert SentFrames(handshake[1..][1..]) == [Parsed(Event(EVENT_TYPE_START))];
    assert SentFrames(handshake[1..]) == [Parsed(Event(EVENT_TYPE_START))];
    SentMediaFrames(cs);
  }

  /**
   * End to end: the server acknowledges every frame the client sends, raises nothing,
   * and its queue receives the client's chunks in order, which together are exactly
   * the audio; the transcription thread then forwards the configuration followed by
   * those chunks.
   */
  lemma ServerReceivesAudio(audio: seq<byte>)
    ensures SimServer.Serve(SentFrames(ClientTrace(audio)))
         == SimServer.Run(2 + |Chunks(audio, CHUNK_SIZE)|, Chunks(audio, CHUNK_SIZE), None)
    ensures Flatten(SimServer.Serve(SentFrames(ClientTrace(audio))).queued) == audio
    ensures SimServer.Requests(SimServer.CONFIG_REQUEST, SimServer.Serve(SentFrames(ClientTrace(audio))).queued)
         == [SimServer.CONFIG_REQUEST] + SimServer.AudioRequests(Chunks(audio, CHUNK_SIZE))
  {
    var cs := Chunks(audio, CHUNK_SIZE);
    var hs := [Parsed(Event(EVENT_TYPE_CONNECTED)), Parsed(Event(EVENT_TYPE_START))];
    ClientFrames(audio);
    ServeHandshake();
    SimServer.ServeAppend(hs, SimServer.MediaFrames(cs));
    SimServer.ServeMediaStream(cs);
    FlattenChunks(audio, CHUNK_SIZE);
  }
}
