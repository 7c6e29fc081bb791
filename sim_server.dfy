/**
 * The relay server: its per-connection message loop, which acknowledges every
 * frame, decodes `media` payloads and puts them on the shared `media_queue`,
 * and the request stream the transcription thread builds by draining that
 * queue.
 */
module SimServer {
  import opened Common
  import opened Wire
  import Base64

  /** The acknowledgement sent for every inbound frame, before it is parsed. */
  const ACK: string := "Connected to server successfully."

  /** An exception the loop catches: the frame is logged as invalid and dropped. */
  datatype DropReason =
    | JsonDecodeError  // the text is not JSON
    | MissingData      // a "media" envelope without "data" (KeyError)

  /** An exception nothing in the handler catches: it ends the message loop. */
  datatype Fault =
    | NotAnObject                       // `.get` on a JSON array, string, number, ... (AttributeError)
    | DataNotText                       // "data" is not a string (TypeError in `b64decode`)
    | BadBase64(reason: Base64.DecodeError)  // ValueError / binascii.Error from `b64decode`

  /** What one iteration of the loop does with a frame after acknowledging it. */
  datatype Outcome =
    | LoggedConnected
    | LoggedStart
    | Enqueued(chunk: seq<byte>)
    | Ignored                  // any other "type", or none
    | Dropped(reason: DropReason)
    | Escaped(fault: Fault)

  /** The body of the `try` block for one frame. */
  function Classify(f: Frame): Outcome {
    match f
    case NotJson => Dropped(JsonDecodeError)
    case Parsed(v) =>
      if !v.JObject? then Escaped(NotAnObject)
      else
        var t := Get(v.members, "type");
        if t == Some(JString(EVENT_TYPE_CONNECTED)) then LoggedConnected
        else if t == Some(JString(EVENT_TYPE_START)) then LoggedStart
        else if t == Some(JString(EVENT_TYPE_MEDIA)) then
          if "data" !in v.members then Dropped(MissingData)
          else match v.members["data"]
            case JString(s) =>
              (match Base64.Decode(s)
               case Ok(b) => Enqueued(b)
               case Err(e) => Escaped(BadBase64(e)))
            case _ => Escaped(DataNotText)
        else Ignored
  }

  /** A media envelope whose payload the server accepts: an object of type "media"
      whose "data" is a string that decodes. */
  predicate WellFormedMedia(f: Frame) {
    f.Parsed? && f.value.JObject?
    && Get(f.value.members, "type") == Some(JString(EVENT_TYPE_MEDIA))
    && "data" in f.value.members && f.value.members["data"].JString?
    && Base64.Decode(f.value.members["data"].s).Ok?
  }

  /** Only a well-formed media envelope puts anything on the queue, and what it puts
      there is exactly its decoded payload. */
  lemma EnqueuedIffWellFormedMedia(f: Frame)
    ensures Classify(f).Enqueued? <==> WellFormedMedia(f)
    ensures Classify(f).Enqueued? ==>
      Classify(f).chunk == Base64.Decode(f.value.members["data"].s).value
  {
  }

  /** The frames the loop catches and drops: text that is not JSON, and a media
      envelope without "data". */
  lemma DroppedFrames(f: Frame)
    ensures Classify(f).Dropped? <==>
      f.NotJson?
      || (f.value.JObject? && Get(f.value.members, "type") == Some(JString(EVENT_TYPE_MEDIA))
          && "data" !in f.value.members)
  {
  }

  /** The frames whose exception escapes the loop: JSON that is not an object, and a
      media envelope whose "data" is not a string or does not decode. */
  lemma EscapingFrames(f: Frame)
    ensures Classify(f).Escaped? <==>
      (f.Parsed? && !f.value.JObject?)
      || (f.Parsed? && f.value.JObject?
          && Get(f.value.members, "type") == Some(JString(EVENT_TYPE_MEDIA))
          && "data" in f.value.members && !WellFormedMedia(f))
  {
  }

  /** The handshake envelopes and any envelope of another or no type are only logged,
      whatever other members they carry. */
  lemma HandshakeAndOtherTypesLogged(t: string, rest: map<string, Json>)
    ensures Classify(Parsed(JObject(rest["type" := JString(EVENT_TYPE_CONNECTED)]))) == LoggedConnected
    ensures Classify(Parsed(JObject(rest["type" := JString(EVENT_TYPE_START)]))) == LoggedStart
    ensures t !in {EVENT_TYPE_CONNECTED, EVENT_TYPE_START, EVENT_TYPE_MEDIA} ==>
      Classify(Parsed(JObject(rest["type" := JString(t)]))) == Ignored
    ensures "type" !in rest ==> Classify(Parsed(JObject(rest))) == Ignored
    ensures "type" in rest && !rest["type"].JString? ==> Classify(Parsed(JObject(rest))) == Ignored
  {
  }

  /** A client media envelope is enqueued as exactly the chunk it carries. */
  lemma MediaEventEnqueued(chunk: seq<byte>)
    ensures Classify(Parsed(MediaEvent(chunk))) == Enqueued(chunk)
  {
    Base64.DecodeEncode(chunk);
  }

  /** The effect of the message loop over a stream of frames: acknowledgements sent,
      chunks put on the queue (in order), and the exception that ended the loop early,
      if any. */
  datatype Run = Run(acks: nat, queued: seq<seq<byte>>, fault: Option<Fault>)

  /** The loop over `frames`. Each frame is acknowledged first; an escaping exception
      stops the loop after its own acknowledgement. */
  function Serve(frames: seq<Frame>): Run
    decreases |frames|
  {
    if frames == [] then Run(0, [], None)
    else
      match Classify(frames[0])
      case Escaped(e) => Run(1, [], Some(e))
      case Enqueued(c) =>
        var r := Serve(frames[1..]);
        Run(r.acks + 1, [c] + r.queued, r.fault)
      case _ =>
        var r := Serve(frames[1..]);
        Run(r.acks + 1, r.queued, r.fault)
  }

  /** Every frame read is acknowledged, the one whose exception escapes included. The
      loop reads every frame unless one raises an uncaught exception, and then it stops
      right after the first such frame. */
  lemma {:induction false} ServeAcknowledges(frames: seq<Frame>)
    ensures Serve(frames).acks <= |frames|
    ensures Serve(frames).fault == None <==>
      Serve(frames).acks == |frames| && forall i :: 0 <= i < |frames| ==> !Classify(frames[i]).Escaped?
    ensures Serve(frames).fault != None ==>
      0 < Serve(frames).acks && Classify(frames[Serve(frames).acks - 1]) == Escaped(Serve(frames).fault.value)
      && forall i :: 0 <= i < Serve(frames).acks - 1 ==> !Classify(frames[i]).Escaped?
    decreases |frames|
  {
    if frames != [] {
      ServeAcknowledges(frames[1..]);
      assert forall i :: 1 <= i < |frames| ==> frames[i] == frames[1..][i - 1];
    }
  }

  /** Serving two streams one after the other, when the first ends normally, is serving
      their concatenation: acknowledgements add up and the queue receives the first
      stream's chunks before the second's. */
  lemma {:induction false} ServeAppend(a: seq<Frame>, b: seq<Frame>)
    requires Serve(a).fault == None
    ensures Serve(a + b) == Run(Serve(a).acks + Serve(b).acks, Serve(a).queued + Serve(b).queued, Serve(b).fault)
    decreases |a|
  {
    if a == [] {
      assert a + b == b;
    } else {
      assert (a + b)[0] == a[0];
      assert (a + b)[1..] == a[1..] + b;
      ServeAppend(a[1..], b);
      if Classify(a[0]).Enqueued? {
        var c := Classify(a[0]).chunk;
        assert ([c] + Serve(a[1..]).queued) + Serve(b).queued == [c] + (Serve(a[1..]).queued + Serve(b).queued);
      }
    }
  }

  /** The decoded payloads of the well-formed media envelopes among `frames`, in order. */
  function MediaPayloads(frames: seq<Frame>): seq<seq<byte>> {
    if frames == [] then []
    else
      (if WellFormedMedia(frames[0]) then [Base64.Decode(frames[0].value.members["data"].s).value] else [])
      + MediaPayloads(frames[1..])
  }

  /** Whatever else the stream holds (handshakes, other types, dropped or
      non-canonical frames), the queue receives the decoded payload of every
      well-formed media envelope the loop reads, once each and in arrival order. */
  lemma {:induction false} ServeQueuesWellFormedPayloads(frames: seq<Frame>)
    ensures Serve(frames).acks <= |frames|
    ensures Serve(frames).queued == MediaPayloads(frames[..Serve(frames).acks])
    decreases |frames|
  {
    if frames != [] {
      var f := frames[0];
      var r := Serve(frames[1..]);
      ServeQueuesWellFormedPayloads(frames[1..]);
      EnqueuedIffWellFormedMedia(f);
      ServeFirst(frames);
      var n := Serve(frames).acks;
      var pre := frames[..n];
      assert pre[0] == f;
      if Classify(f).Escaped? {
        assert pre[1..] == [];
      } else {
        assert pre[1..] == frames[1..][..r.acks];
      }
    }
  }

  /** One iteration of the loop: the first frame's outcome, then the rest of the stream. */
  lemma ServeFirst(frames: seq<Frame>)
    requires frames != []
    ensures Classify(frames[0]).Escaped? ==> Serve(frames) == Run(1, [], Some(Classify(frames[0]).fault))
    ensures Classify(frames[0]).Enqueued? ==>
      Serve(frames) == Run(Serve(frames[1..]).acks + 1, [Classify(frames[0]).chunk] + Serve(frames[1..]).queued, Serve(frames[1..]).fault)
    ensures !Classify(frames[0]).Escaped? && !Classify(frames[0]).Enqueued? ==>
      Serve(frames) == Run(Serve(frames[1..]).acks + 1, Serve(frames[1..]).queued, Serve(frames[1..]).fault)
  {
  }

  /** The frames of a stream of media envelopes, one per chunk. */
  function MediaFrames(chunks: seq<seq<byte>>): seq<Frame> {
    if chunks == [] then [] else [Parsed(MediaEvent(chunks[0]))] + MediaFrames(chunks[1..])
  }

  /** Across a stream of media envelopes, the queue receives every payload once, in
      arrival order, and every frame is acknowledged. */
  lemma {:induction false} ServeMediaStream(chunks: seq<seq<byte>>)
    ensures Serve(MediaFrames(chunks)) == Run(|chunks|, chunks, None)
    decreases |chunks|
  {
    if chunks != [] {
      var fs := MediaFrames(chunks);
      MediaEventEnqueued(chunks[0]);
      assert fs[0] == Parsed(MediaEvent(chunks[0]));
      assert fs[1..] == MediaFrames(chunks[1..]);
      ServeMediaStream(chunks[1..]);
      assert [chunks[0]] + chunks[1..] == chunks;
    }
  }

  /** n acknowledgements. */
  function Acks(n: nat): (s: seq<string>)
    ensures |s| == n && forall i :: 0 <= i < n ==> s[i] == ACK
  {
    if n == 0 then [] else Acks(n - 1) + [ACK]
  }

  /** The process-wide `queue.Queue` the server loop fills and the transcription
      thread drains. A `get` that would time out is a `get` on an empty queue. */
  class MediaQueue {
    var items: seq<seq<byte>>

    constructor ()
      ensures items == []
    {
      items := [];
    }

    /** `put(x)`: append at the back. */
    method Put(x: seq<byte>)
      modifies this
      ensures items == old(items) + [x]
    {
      items := items + [x];
    }

    /** `get(timeout=...)`: the front item, or `None` (queue.Empty) when nothing is queued. */
    method Get() returns (x: Option<seq<byte>>)
      modifies this
      ensures old(items) == [] ==> x == None && items == []
      ensures old(items) != [] ==> x == Some(old(items)[0]) && items == old(items)[1..]
    {
      if items == [] {
        x := None;
      } else {
        x := Some(items[0]);
        items := items[1..];
      }
    }
  }

  /** After `i` frames with `added` queued and no escaped exception, the rest of the
      run is what `Serve` makes of the remaining frames. */
  ghost predicate ServedSoFar(frames: seq<Frame>, i: nat, added: seq<seq<byte>>)
    requires i <= |frames|
  {
    var r := Serve(frames[i..]);
    Serve(frames) == Run(i + r.acks, added + r.queued, r.fault)
  }

  /** One turn of the handler loop keeps `ServedSoFar`, or ends the run with the
      exception that escapes. */
  lemma HandlerStep(frames: seq<Frame>, i: nat, added: seq<seq<byte>>)
    requires i < |frames| && ServedSoFar(frames, i, added)
    ensures Classify(frames[i]).Escaped? ==>
      Serve(frames) == Run(i + 1, added, Some(Classify(frames[i]).fault))
    ensures Classify(frames[i]).Enqueued? ==>
      ServedSoFar(frames, i + 1, added + [Classify(frames[i]).chunk])
    ensures !Classify(frames[i]).Escaped? && !Classify(frames[i]).Enqueued? ==>
      ServedSoFar(frames, i + 1, added)
  {
    var t := frames[i..];
    assert t[0] == frames[i];
    assert t[1..] == frames[i + 1..];
    ServeFirst(t);
    var r := Serve(frames[i + 1..]);
    var o := Classify(frames[i]);
    if o.Enqueued? {
      assert added + ([o.chunk] + r.queued) == (added + [o.chunk]) + r.queued;
    }
  }

  /**
   * The `async for event in websocket` loop of `handler`: for each inbound frame,
   * send the acknowledgement, then classify it and put a decoded media payload on the
   * queue. Returns the frames sent back and the exception that ended the loop, if any.
   */
  method Handler(frames: seq<Frame>, q: MediaQueue) returns (sent: seq<string>, fault: Option<Fault>)
    modifies q
    ensures sent == Acks(Serve(frames).acks)
    ensures q.items == old(q.items) + Serve(frames).queued
    ensures fault == Serve(frames).fault
  {
    sent, fault := [], None;
    ghost var added: seq<seq<byte>> := [];
    var i := 0;
    while i < |frames| && fault == None
      invariant 0 <= i <= |frames|
      invariant sent == Acks(i)
      invariant q.items == old(q.items) + added
      invariant fault == None ==> ServedSoFar(frames, i, added)
      invariant fault != None ==> Serve(frames) == Run(i, added, fault)
      decreases |frames| - i
    {
      sent := sent + [ACK];
      var outcome := Classify(frames[i]);
      HandlerStep(frames, i, added);
      if outcome.Enqueued? {
        q.Put(outcome.chunk);
        added := added + [outcome.chunk];
      } else if outcome.Escaped? {
        fault := Some(outcome.fault);
      }
      i := i + 1;
    }
    assert fault == None ==> frames[i..] == [];
  }

  const LOCATION: string := "asia-south1"
  const PROJECT_ID: string := "hello-world-418507"
  const SAMPLE_RATE: nat := 44100

  /** The recognition settings of the transcription thread's first request. */
  datatype StreamingConfig = StreamingConfig(
    encoding: string,
    sampleRateHertz: nat,
    audioChannelCount: nat,
    languageCodes: seq<string>,
    model: string,
    voiceActivityEvents: bool)

  /** A `StreamingRecognizeRequest`: the configuration, or one chunk of audio. */
  datatype RecognizeRequest =
    | ConfigRequest(recognizer: string, streamingConfig: StreamingConfig)
    | AudioRequest(audio: seq<byte>)

  /** The configuration request `transcript_thread` passes to `create_requests`. */
  const CONFIG_REQUEST: RecognizeRequest :=
    ConfigRequest("projects/" + PROJECT_ID + "/locations/" + LOCATION + "/recognizers/_",
                  StreamingConfig("LINEAR16", SAMPLE_RATE, 1, ["en-US"], "long", true))

  /** One audio request per chunk, in queue order. */
  function AudioRequests(chunks: seq<seq<byte>>): seq<RecognizeRequest> {
    if chunks == [] then [] else [AudioRequest(chunks[0])] + AudioRequests(chunks[1..])
  }

  /** What `create_requests` yields when the queue holds `snapshot` and nothing more
      arrives: the configuration, then the queued chunks. */
  function Requests(config: RecognizeRequest, snapshot: seq<seq<byte>>): seq<RecognizeRequest> {
    [config] + AudioRequests(snapshot)
  }

  /** The configuration comes first, then each queued chunk exactly once, in FIFO order;
      an empty queue yields the configuration alone. */
  lemma {:induction false} RequestsShape(config: RecognizeRequest, snapshot: seq<seq<byte>>)
    ensures |Requests(config, snapshot)| == |snapshot| + 1
    ensures Requests(config, snapshot)[0] == config
    ensures forall i :: 0 <= i < |snapshot| ==> Requests(config, snapshot)[i + 1] == AudioRequest(snapshot[i])
    decreases |snapshot|
  {
    if snapshot != [] {
      RequestsShape(config, snapshot[1..]);
      assert AudioRequests(snapshot) == [AudioRequest(snapshot[0])] + AudioRequests(snapshot[1..]);
      forall i | 1 <= i < |snapshot|
        ensures Requests(config, snapshot)[i + 1] == AudioRequest(snapshot[i])
      {
        assert Requests(config, snapshot)[i + 1] == Requests(config, snapshot[1..])[i];
      }
    }
  }

  /** `create_requests`: yield the configuration, then pop and yield chunks until a
      `get` finds the queue empty. */
  method CreateRequests(config: RecognizeRequest, q: MediaQueue) returns (reqs: seq<RecognizeRequest>)
    modifies q
    ensures reqs == Requests(config, old(q.items))
    ensures q.items == []
  {
    reqs := [config];
    var empty := false;
    while !empty
      invariant reqs + AudioRequests(q.items) == Requests(config, old(q.items))
      invariant empty ==> q.items == []
      decreases |q.items|, !empty
    {
      var x := q.Get();
      match x {
        case None =>
          empty := true;
        case Some(chunk) =>
          reqs := reqs + [AudioRequest(chunk)];
      }
    }
  }
}
