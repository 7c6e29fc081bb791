/**
 * The Dialogflow CX streaming demo: the session path, the regional endpoint
 * option, and the request stream that sends one configuration request followed
 * by the audio file in reads of one second of 16-bit, 44.1 kHz audio.
 */
module Streaming {
  import opened Common
  import opened Chunking

  const BYTES_PER_SAMPLE: nat := 2
  const SAMPLE_RATE: nat := 44100  // hertz
  const CHUNK_TIME: nat := 1       // seconds per chunk

  /** `CHUNK_SIZE`: bytes per read, one second of LINEAR16 audio. */
  function ChunkSize(): (n: nat)
    ensures n == 88200
  {
    CHUNK_TIME * SAMPLE_RATE * BYTES_PER_SAMPLE
  }

  const SESSIONS_SEGMENT: string := "/sessions/"

  /** `f"{agent}/sessions/{session_id}"` */
  function SessionPath(agent: string, sessionId: string): (p: string)
    ensures |p| == |agent| + |SESSIONS_SEGMENT| + |sessionId|
    ensures p[..|agent|] == agent
    ensures p[|agent|..|agent| + |SESSIONS_SEGMENT|] == SESSIONS_SEGMENT
    ensures p[|agent| + |SESSIONS_SEGMENT|..] == sessionId
  {
    agent + SESSIONS_SEGMENT + sessionId
  }

  /** Under one agent, distinct session ids name distinct sessions, so reusing an id is
      what continues a conversation. */
  lemma SessionPathInjective(agent: string, id1: string, id2: string)
    ensures SessionPath(agent, id1) == SessionPath(agent, id2) <==> id1 == id2
  {
    if SessionPath(agent, id1) == SessionPath(agent, id2) {
      var n := |agent| + |SESSIONS_SEGMENT|;
      assert id1 == SessionPath(agent, id1)[n..];
    }
  }

  const GLOBAL: string := "global"
  const API_ENDPOINT: string := "api_endpoint"
  const ENDPOINT_SUFFIX: string := "-dialogflow.googleapis.com:443"

  /** `client_options` for the agent's location: a regional endpoint unless the agent is
      global, in which case the dictionary stays empty. */
  function ClientOptions(location: string): (opts: map<string, string>)
    ensures API_ENDPOINT in opts <==> location != GLOBAL
    ensures opts.Keys <= {API_ENDPOINT}
    ensures API_ENDPOINT in opts ==> opts[API_ENDPOINT] == location + ENDPOINT_SUFFIX
  {
    var options := map[];
    if location != GLOBAL then options[API_ENDPOINT := location + ENDPOINT_SUFFIX] else options
  }

  datatype InputAudioConfig = InputAudioConfig(audioEncoding: string, model: string)
  datatype VoiceSelectionParams = VoiceSelectionParams(name: string, ssmlGender: string)
  datatype OutputAudioConfig = OutputAudioConfig(audioEncoding: string, voice: VoiceSelectionParams)

  /** An `AudioInput`: the audio configuration, or audio bytes (empty when unset). */
  datatype AudioInput = AudioInput(config: Option<InputAudioConfig>, audio: seq<byte>)
  /** A `QueryInput`; an unset language code is the empty string. */
  datatype QueryInput = QueryInput(audio: AudioInput, languageCode: string)
  /** A `StreamingDetectIntentRequest`; an unset session is the empty string. */
  datatype DetectRequest = DetectRequest(session: string, queryInput: QueryInput, outputAudioConfig: Option<OutputAudioConfig>)

  const INPUT_AUDIO_CONFIG: InputAudioConfig := InputAudioConfig("AUDIO_ENCODING_LINEAR_16", "chirp_2")
  const OUTPUT_AUDIO_CONFIG: OutputAudioConfig :=
    OutputAudioConfig("OUTPUT_AUDIO_ENCODING_LINEAR_16",
                      VoiceSelectionParams("en-GB-Standard-A", "SSML_VOICE_GENDER_FEMALE"))

  /** The first request: session, audio configuration and language, output audio
      configuration, and no audio. */
  function ConfigRequest(sessionPath: string, languageCode: string): DetectRequest {
    DetectRequest(sessionPath,
                  QueryInput(AudioInput(Some(INPUT_AUDIO_CONFIG), []), languageCode),
                  Some(OUTPUT_AUDIO_CONFIG))
  }

  /** A later request: one chunk of audio and nothing else. */
  function AudioRequest(chunk: seq<byte>): DetectRequest {
    DetectRequest("", QueryInput(AudioInput(None, chunk), ""), None)
  }

  function AudioRequests(chunks: seq<seq<byte>>): (reqs: seq<DetectRequest>)
    ensures |reqs| == |chunks|
  {
    if chunks == [] then [] else [AudioRequest(chunks[0])] + AudioRequests(chunks[1..])
  }

  /** The audio bytes each request carries. */
  function AudioOf(reqs: seq<DetectRequest>): seq<seq<byte>> {
    if reqs == [] then [] else [reqs[0].queryInput.audio.audio] + AudioOf(reqs[1..])
  }

  lemma {:induction false} AudioOfAudioRequests(chunks: seq<seq<byte>>)
    ensures AudioOf(AudioRequests(chunks)) == chunks
    decreases |chunks|
  {
    if chunks != [] {
      AudioOfAudioRequests(chunks[1..]);
      assert AudioRequests(chunks)[1..] == AudioRequests(chunks[1..]);
    }
  }

  lemma {:induction false} AudioRequestsAt(chunks: seq<seq<byte>>, j: nat)
    requires j < |chunks|
    ensures |AudioRequests(chunks)| == |chunks|
    ensures AudioRequests(chunks)[j] == AudioRequest(chunks[j])
    decreases |chunks|
  {
    if j > 0 {
      AudioRequestsAt(chunks[1..], j - 1);
    } else if |chunks| > 1 {
      AudioRequestsAt(chunks[1..], 0);
    }
  }

  /** A file opened with `open(path, "rb")`: `read(n)` returns the next `n` bytes, fewer
      at the end of the file and none after it. */
  class AudioFile {
    const contents: seq<byte>
    var pos: nat

    ghost predicate Valid()
      reads this
    {
      pos <= |contents|
    }

    constructor (contents: seq<byte>)
      ensures Valid() && this.contents == contents && pos == 0
    {
      this.contents := contents;
      pos := 0;
    }

    method Read(n: nat) returns (chunk: seq<byte>)
      requires Valid()
      modifies this
      ensures Valid()
      ensures chunk == contents[old(pos)..Min(old(pos) + n, |contents|)]
      ensures pos == old(pos) + |chunk|
    {
      chunk := contents[pos..Min(pos + n, |contents|)];
      pos := pos + |chunk|;
    }
  }

  /**
   * `request_generator`: the configuration request, then one request per
   * `read(CHUNK_SIZE)` of the audio file until a read comes back empty.
   */
  method RequestGenerator(sessionPath: string, languageCode: string, contents: seq<byte>)
    returns (reqs: seq<DetectRequest>)
    ensures reqs == [ConfigRequest(sessionPath, languageCode)] + AudioRequests(Chunks(contents, ChunkSize()))
  {
    reqs := [ConfigRequest(sessionPath, languageCode)];
    var audioFile := new AudioFile(contents);
    while true
      invariant audioFile.Valid() && audioFile.contents == contents
      invariant reqs + AudioRequests(Chunks(contents[audioFile.pos..], ChunkSize()))
             == [ConfigRequest(sessionPath, languageCode)] + AudioRequests(Chunks(contents, ChunkSize()))
      decreases |contents| - audioFile.pos
    {
      ghost var before := audioFile.pos;
      var chunk := audioFile.Read(ChunkSize());
      if chunk == [] {
        assert contents[before..] == [];
        break;
      }
      ghost var rest := contents[before..];
      ChunksCons(rest, ChunkSize());
      assert rest[..Min(ChunkSize(), |rest|)] == chunk;
      assert rest[Min(ChunkSize(), |rest|)..] == contents[audioFile.pos..];
      reqs := reqs + [AudioRequest(chunk)];
    }
  }

  /** The request stream: first the configuration with no audio, then requests that each
      carry one non-empty read of at most `CHUNK_SIZE` bytes, all but the last exactly
      `CHUNK_SIZE`, which together are the file. */
  lemma RequestStream(sessionPath: string, languageCode: string, contents: seq<byte>)
    ensures var reqs := [ConfigRequest(sessionPath, languageCode)] + AudioRequests(Chunks(contents, ChunkSize()));
      && reqs[0].session == sessionPath
      && reqs[0].queryInput == QueryInput(AudioInput(Some(INPUT_AUDIO_CONFIG), []), languageCode)
      && reqs[0].outputAudioConfig == Some(OUTPUT_AUDIO_CONFIG)
      && (forall i :: 1 <= i < |reqs| ==>
            reqs[i].queryInput.audio.config == None && 0 < |reqs[i].queryInput.audio.audio| <= ChunkSize())
      && (forall i :: 1 <= i < |reqs| - 1 ==> |reqs[i].queryInput.audio.audio| == ChunkSize())
      && Flatten(AudioOf(reqs[1..])) == contents
  {
    var cs := Chunks(contents, ChunkSize());
    var reqs := [ConfigRequest(sessionPath, languageCode)] + AudioRequests(cs);
    ChunkSizes(contents, ChunkSize());
    FlattenChunks(contents, ChunkSize());
    AudioOfAudioRequests(cs);
    assert reqs[1..] == AudioRequests(cs);
    forall i | 1 <= i < |reqs|
      ensures reqs[i] == AudioRequest(cs[i - 1])
    {
      AudioRequestsAt(cs, i - 1);
    }
  }
}
