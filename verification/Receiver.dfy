/** The edge device's reassembly of a chunked model: a state machine over incoming messages. */
module Receiver {
  import opened Prelude
  import opened Wire

  // Hashing and JSON are parameters

  /** SHA-256, of which only the digest length is used. */
  type HashFunction = Bytes -> Bytes

  ghost predicate DigestLength(sha: HashFunction) {
    forall data :: |sha(data)| == 32
  }

  datatype Meta = Meta(filename: string, totalChunks: int, totalSize: int, sha256: Bytes, chunkSize: int)

  /** A decoded meta message; a field is None when the key is missing. */
  datatype MetaJson =
    | Undecodable
    | Fields(filename: Option<string>, totalChunks: Option<int>, totalSize: Option<int>, sha256: Option<Bytes>,
             chunkSize: Option<int>)

  datatype Codec = Codec(encode: Meta -> Bytes, decode: Bytes -> MetaJson)

  function AllFields(m: Meta): MetaJson {
    Fields(Some(m.filename), Some(m.totalChunks), Some(m.totalSize), Some(m.sha256), Some(m.chunkSize))
  }

  /** Decoding undoes encoding. */
  ghost predicate Invertible(codec: Codec) {
    forall m :: codec.decode(codec.encode(m)) == AllFields(m)
  }

  // State and events

  /** tempDir holds the chunk files of the active transfer; None when there is none. */
  datatype State = State(
    filename: Option<string>, totalChunks: int, totalSize: int, expected: Option<Bytes>, chunkSize: int,
    received: set<nat>, tempDir: Option<map<nat, Bytes>>)

  const EMPTY: State := State(None, 0, 0, None, 0, {}, None)

  datatype Event =
    | SuccessAck(filename: Option<string>)
    | ErrorAck(filename: Option<string>, missing: seq<nat>)
    | HandOver(file: Bytes)

  datatype Step = Step(state: State, events: seq<Event>)

  /** Fields are stored one by one; the first missing key raises and leaves the rest as they were. */
  function OnMeta(s: State, json: MetaJson): State {
    if json.Undecodable? || json.filename.None? then s
    else
      var s1 := s.(filename := json.filename);
      if json.totalChunks.None? then s1
      else
        var s2 := s1.(totalChunks := json.totalChunks.value);
        if json.totalSize.None? then s2
        else
          var s3 := s2.(totalSize := json.totalSize.value);
          if json.sha256.None? then s3
          else
            var s4 := s3.(expected := json.sha256);
            if json.chunkSize.None? then s4
            else s4.(chunkSize := json.chunkSize.value, received := {}, tempDir := Some(map[]))
  }

  /** The missing indices below n, ascending. */
  function MissingBelow(received: set<nat>, n: int): seq<nat> {
    if n <= 0 then []
    else MissingBelow(received, n - 1) + if n - 1 in received then [] else [n - 1]
  }

  /** Chunk files 0 to n - 1 end to end, or None at the first that does not exist. */
  function JoinFiles(files: map<nat, Bytes>, n: int): Option<Bytes> {
    if n <= 0 then Some([])
    else
      var before := JoinFiles(files, n - 1);
      if before.None? || n - 1 !in files then None else Some(before.value + files[n - 1])
  }

  function Assemble(sha: HashFunction, s: State): Step
    requires s.tempDir.Some?
  {
    var joined := JoinFiles(s.tempDir.value, s.totalChunks);
    if joined.None? || Some(sha(joined.value)) != s.expected
    then Step(s, [ErrorAck(s.filename, MissingBelow(s.received, s.totalChunks))])
    else Step(EMPTY, [SuccessAck(s.filename), HandOver(joined.value)])
  }

  /** The chunk carried by a message body if it is long enough and its data matches its hash. */
  function IntactChunk(sha: HashFunction, body: Bytes): Option<Chunk> {
    match ParseChunk(body)
    case None => None
    case Some(c) => if sha(c.data) == c.digest then Some(c) else None
  }

  function Accept(s: State, c: Chunk): State
    requires s.tempDir.Some?
  {
    s.(received := s.received + {c.index}, tempDir := Some(s.tempDir.value[c.index := c.data]))
  }

  function OnChunk(sha: HashFunction, s: State, body: Bytes): Step {
    var chunk := IntactChunk(sha, body);
    if chunk.None? || s.tempDir.None? then Step(s, [])
    else
      var s' := Accept(s, chunk.value);
      if |s'.received| == s'.totalChunks then Assemble(sha, s') else Step(s', [])
  }

  function OnMessage(sha: HashFunction, decode: Bytes -> MetaJson, s: State, payload: Bytes): Step {
    match Dispatch(payload)
    case MetaMessage(body) => Step(OnMeta(s, decode(body)), [])
    case ChunkMessage(body) => OnChunk(sha, s, body)
    case Ignored => Step(s, [])
  }

  /** All messages in turn, with every event they cause. */
  function OnMessages(sha: HashFunction, decode: Bytes -> MetaJson, s: State, payloads: seq<Bytes>): Step
    decreases |payloads|
  {
    if payloads == [] then Step(s, [])
    else
      var first := OnMessage(sha, decode, s, payloads[0]);
      var rest := OnMessages(sha, decode, first.state, payloads[1..]);
      Step(rest.state, first.events + rest.events)
  }

  // The receiver as it runs

  class ModelReceiver {
    const sha: HashFunction
    const decode: Bytes -> MetaJson

    var filename: Option<string>
    var totalChunks: int
    var totalSize: int
    var expectedSha256: Option<Bytes>
    var chunkSize: int
    var receivedChunks: set<nat>
    var tempDir: Option<map<nat, Bytes>>
    /** Everything published or handed to on_model_ready, in order. */
    var events: seq<Event>

    function Current(): State
      reads this
    {
      State(filename, totalChunks, totalSize, expectedSha256, chunkSize, receivedChunks, tempDir)
    }

    constructor (sha: HashFunction, decode: Bytes -> MetaJson)
      ensures this.sha == sha && this.decode == decode
      ensures Current() == EMPTY && events == []
    {
      this.sha, this.decode := sha, decode;
      filename, totalChunks, totalSize, expectedSha256, chunkSize := None, 0, 0, None, 0;
      receivedChunks, tempDir, events := {}, None, [];
    }

    method ResetState()
      modifies this
      ensures Current() == EMPTY && events == old(events)
    {
      filename, totalChunks, totalSize, expectedSha256, chunkSize := None, 0, 0, None, 0;
      receivedChunks, tempDir := {}, None;
    }

    method HandleMeta(body: Bytes)
      modifies this
      ensures Current() == OnMeta(old(Current()), decode(body)) && events == old(events)
    {
      var meta := decode(body);
      if meta.Undecodable? || meta.filename.None? { return; }
      filename := meta.filename;
      if meta.totalChunks.None? { return; }
      totalChunks := meta.totalChunks.value;
      if meta.totalSize.None? { return; }
      totalSize := meta.totalSize.value;
      if meta.sha256.None? { return; }
      expectedSha256 := meta.sha256;
      if meta.chunkSize.None? { return; }
      chunkSize := meta.chunkSize.value;
      receivedChunks := {};
      tempDir := Some(map[]);
    }

    method HandleChunk(body: Bytes)
      modifies this
      ensures var step := OnChunk(sha, old(Current()), body);
              Current() == step.state && events == old(events) + step.events
    {
      if |body| < 36 { return; }
      var chunkIndex := UnpackU32(body[..4]);
      var expectedHash, chunkData := body[4..36], body[36..];
      if sha(chunkData) != expectedHash { return; }
      if tempDir.None? { return; }
      tempDir := Some(tempDir.value[chunkIndex := chunkData]);
      receivedChunks := receivedChunks + {chunkIndex};
      if |receivedChunks| == totalChunks {
        AssembleAndVerify();
      }
    }

    method AssembleAndVerify()
      requires tempDir.Some?
      modifies this
      ensures var step := Assemble(sha, old(Current()));
              Current() == step.state && events == old(events) + step.events
    {
      var assembled: Bytes := [];
      var i := 0;
      while i < totalChunks
        invariant i <= Max(totalChunks, 0) && Current() == old(Current()) && events == old(events)
        invariant JoinFiles(tempDir.value, i) == Some(assembled)
      {
        if i !in tempDir.value {
          JoinStopsAtMissing(tempDir.value, i, totalChunks);
          SendErrorAck();
          return;
        }
        assembled := assembled + tempDir.value[i];
        i := i + 1;
      }
      if Some(sha(assembled)) != expectedSha256 {
        SendErrorAck();
        return;
      }
      events := events + [SuccessAck(filename)];
      ghost var published := events;
      ResetState();
      events := events + [HandOver(assembled)];
      assert published + [HandOver(assembled)] == old(events) + [SuccessAck(old(filename)), HandOver(assembled)];
    }

    method SendErrorAck()
      modifies this
      ensures Current() == old(Current())
      ensures events == old(events) + [ErrorAck(filename, MissingBelow(receivedChunks, totalChunks))]
    {
      var missing: seq<nat> := [];
      var i := 0;
      while i < totalChunks
        invariant i <= Max(totalChunks, 0) && Current() == old(Current()) && events == old(events)
        invariant missing == MissingBelow(receivedChunks, i)
      {
        if i !in receivedChunks {
          missing := missing + [i];
        }
        i := i + 1;
      }
      events := events + [ErrorAck(filename, missing)];
    }

    /** The dispatch that feeds the two handlers. */
    method HandleModel(payload: Bytes)
      modifies this
      ensures var step := OnMessage(sha, decode, old(Current()), payload);
              Current() == step.state && events == old(events) + step.events
    {
      if |payload| < 1 { return; }
      var msgType, data := payload[0], payload[1..];
      if msgType == MODEL_TYPE_META {
        HandleMeta(data);
      } else if msgType == MODEL_TYPE_CHUNK {
        HandleChunk(data);
      }
    }
  }

  lemma {:induction false} JoinStopsAtMissing(files: map<nat, Bytes>, i: nat, n: int)
    requires i < n && i !in files
    ensures JoinFiles(files, n).None?
  {
    if i < n - 1 {
      JoinStopsAtMissing(files, i, n - 1);
    }
  }
}
