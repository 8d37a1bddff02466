/** The backend's side of a model transfer: publish, wait for an ACK, retry once. */
module Distributor {
  import opened Prelude
  import opened Wire
  import opened Receiver
  import opened ReceiverSafety
  import opened Delivery

  // ACKs on the wire

  /** A decoded ACK; status is None when the key is missing. */
  datatype AckBody = AckBody(filename: Option<string>, status: Option<string>, missingChunks: seq<int>)

  datatype AckCodec = AckCodec(encode: AckBody -> Bytes, decode: Bytes -> Option<AckBody>)

  ghost predicate AcksInvertible(codec: AckCodec) {
    forall a :: codec.decode(codec.encode(a)) == Some(a)
  }

  const SUCCESS: string := "success"
  const ERROR: string := "error"

  /** The ACK body of an event that is an ACK. */
  function BodyOf(e: Event): AckBody
    requires !e.HandOver?
  {
    match e
    case SuccessAck(filename) => AckBody(filename, Some(SUCCESS), [])
    case ErrorAck(filename, missing) => AckBody(filename, Some(ERROR), missing)
  }

  /** What the receiver publishes for its events. */
  function AckPayloads(codec: AckCodec, events: seq<Event>): seq<Bytes> {
    if events == [] then []
    else
      (if events[0].HandOver? then [] else [[MODEL_TYPE_ACK] + codec.encode(BodyOf(events[0]))])
      + AckPayloads(codec, events[1..])
  }

  /** The broker handler's parsing: only ACK messages that decode reach the distributor. */
  function ParseAck(codec: AckCodec, payload: Bytes): Option<AckBody> {
    if |payload| < 1 || payload[0] != MODEL_TYPE_ACK then None else codec.decode(payload[1..])
  }

  function ParseAcks(codec: AckCodec, payloads: seq<Bytes>): seq<AckBody> {
    if payloads == [] then []
    else
      (match ParseAck(codec, payloads[0])
       case None => []
       case Some(a) => [a])
      + ParseAcks(codec, payloads[1..])
  }

  function AcksIn(events: seq<Event>): seq<AckBody> {
    if events == [] then []
    else (if events[0].HandOver? then [] else [BodyOf(events[0])]) + AcksIn(events[1..])
  }

  /** Every ACK the receiver sends is parsed back by the broker, in order. */
  lemma {:induction false} AcksRoundTrip(codec: AckCodec, events: seq<Event>)
    requires AcksInvertible(codec)
    ensures ParseAcks(codec, AckPayloads(codec, events)) == AcksIn(events)
  {
    if events != [] {
      AcksRoundTrip(codec, events[1..]);
      if !events[0].HandOver? {
        var frame := [MODEL_TYPE_ACK] + codec.encode(BodyOf(events[0]));
        assert frame[1..] == codec.encode(BodyOf(events[0]));
        assert ([frame] + AckPayloads(codec, events[1..]))[1..] == AckPayloads(codec, events[1..]);
      } else {
        assert [] + AckPayloads(codec, events[1..]) == AckPayloads(codec, events[1..]);
      }
    }
  }

  /** No ACK a receiver ever sends carries the status "ok", for which alone the broker registers a model version. */
  lemma {:induction false} NoAckRegistersVersion(events: seq<Event>)
    ensures forall a :: a in AcksIn(events) ==> a.status != Some("ok")
  {
    if events != [] {
      NoAckRegistersVersion(events[1..]);
      assert Some(SUCCESS) != Some("ok") && Some(ERROR) != Some("ok") by {
        assert |SUCCESS| == 7 && |ERROR| == 5 && |"ok"| == 2;
      }
    }
  }

  // The distributor

  /** Raised stands for the packing error of an index that does not fit in 32 bits. */
  datatype Outcome = Returned(ok: bool) | Raised

  predicate Packable(i: int) {
    0 <= i < TWO_TO_32
  }

  predicate AllPackable(indices: seq<int>) {
    forall k :: 0 <= k < |indices| ==> Packable(indices[k])
  }

  /** The retried chunk messages, up to the first index that cannot be packed. */
  function RetriedChunks(sha: HashFunction, t: Transfer, missing: seq<int>): seq<Bytes> {
    if missing == [] || !Packable(missing[0]) then []
    else [PublishedChunk(sha, t, missing[0])] + RetriedChunks(sha, t, missing[1..])
  }

  /** Whether the last of the ACKs that arrived in time reports success; none means a timeout. */
  predicate LastSucceeds(acks: seq<AckBody>) {
    acks != [] && acks[|acks| - 1].status == Some(SUCCESS)
  }

  /**
   The outcome, given the ACKs that arrive before the first one is read and those that arrive between
   the late clear of the retry and its read.
   */
  function OutcomeOf(t: Transfer, first: seq<AckBody>, afterRetry: seq<AckBody>): Outcome
    requires t.chunkSize >= 1
  {
    if Total(t) > TWO_TO_32 then Raised
    else if first == [] then Returned(false)
    else if LastSucceeds(first) then Returned(true)
    else
      var missing := first[|first| - 1].missingChunks;
      if missing == [] then Returned(false)
      else if !AllPackable(missing) then Raised
      else Returned(LastSucceeds(afterRetry))
  }

  class ModelDistributor {
    const sha: HashFunction
    const codec: Codec

    /** Everything handed to the MQTT client, in order. */
    var published: seq<Bytes>
    var ackEvent: bool
    var ackData: Option<AckBody>

    constructor (sha: HashFunction, codec: Codec)
      ensures this.sha == sha && this.codec == codec && published == []
    {
      this.sha, this.codec := sha, codec;
      published, ackEvent, ackData := [], false, None;
    }

    method OnModelAck(ack: AckBody)
      modifies this`ackEvent, this`ackData
      ensures ackEvent && ackData == Some(ack)
    {
      ackData := Some(ack);
      ackEvent := true;
    }

    /** The callbacks that happen while the distributor publishes or waits. */
    method Arrive(acks: seq<AckBody>)
      modifies this`ackEvent, this`ackData
      ensures acks == [] ==> ackEvent == old(ackEvent) && ackData == old(ackData)
      ensures acks != [] ==> ackEvent && ackData == Some(acks[|acks| - 1])
    {
      for k := 0 to |acks|
        invariant k == 0 ==> ackEvent == old(ackEvent) && ackData == old(ackData)
        invariant k > 0 ==> ackEvent && ackData == Some(acks[k - 1])
      {
        OnModelAck(acks[k]);
      }
    }

    method ClearAck()
      modifies this`ackEvent, this`ackData
      ensures !ackEvent && ackData == None
    {
      ackEvent := false;
      ackData := None;
    }

    /** Publishes every chunk in order; stops with an error at an index beyond 32 bits. */
    method PublishChunks(t: Transfer) returns (raised: bool)
      requires t.chunkSize >= 1
      modifies this`published
      ensures raised <==> Total(t) > TWO_TO_32
      ensures published == old(published) + PublishedChunks(sha, t, Min(Total(t), TWO_TO_32))
    {
      var i := 0;
      while i < Total(t)
        invariant i <= Total(t) && i <= TWO_TO_32
        invariant published == old(published) + PublishedChunks(sha, t, i)
      {
        if i >= TWO_TO_32 {
          return true;
        }
        var data := ChunkData(t.file, t.chunkSize, i);
        published := published + [ChunkFrame(i, sha(data), data)];
        i := i + 1;
      }
      raised := false;
    }

    /**
     Sends the file and waits. first are the ACKs that arrive before the result is read, beforeClear those
     that arrive while a retry publishes, and afterRetry those that arrive once the retry waits.
     */
    method DistributeModel(t: Transfer, first: seq<AckBody>, beforeClear: seq<AckBody>, afterRetry: seq<AckBody>)
      returns (outcome: Outcome)
      requires t.chunkSize >= 1
      modifies this
      ensures outcome == OutcomeOf(t, first, afterRetry)
      ensures var sent := [MetaFrame(sha, codec, t)] + PublishedChunks(sha, t, Min(Total(t), TWO_TO_32));
              var retries := Total(t) <= TWO_TO_32 && first != [] && !LastSucceeds(first);
              published == old(published) + sent
                           + if retries then RetriedChunks(sha, t, first[|first| - 1].missingChunks) else []
    {
      ClearAck();
      published := published + [MetaFrame(sha, codec, t)];
      var raised := PublishChunks(t);
      ghost var sent := [MetaFrame(sha, codec, t)] + PublishedChunks(sha, t, Min(Total(t), TWO_TO_32));
      assert published == old(published) + sent;
      if raised {
        return Raised;
      }
      Arrive(first);
      if !ackEvent || ackData.None? {
        return Returned(false);
      }
      if ackData.value.status == Some(SUCCESS) {
        return Returned(true);
      }
      var missing := ackData.value.missingChunks;
      if missing == [] {
        return Returned(false);
      }
      outcome := RetryChunks(t, missing, beforeClear, afterRetry);
    }

    /** Re-sends the missing chunks, and only then clears the ACK state and waits again. */
    method RetryChunks(t: Transfer, missing: seq<int>, beforeClear: seq<AckBody>, afterRetry: seq<AckBody>)
      returns (outcome: Outcome)
      requires t.chunkSize >= 1
      modifies this
      ensures outcome == if AllPackable(missing) then Returned(LastSucceeds(afterRetry)) else Raised
      ensures published == old(published) + RetriedChunks(sha, t, missing)
    {
      ghost var done: seq<Bytes> := [];
      for k := 0 to |missing|
        invariant AllPackable(missing[..k])
        invariant done + RetriedChunks(sha, t, missing[k..]) == RetriedChunks(sha, t, missing)
        invariant published == old(published) + done
      {
        assert missing[k..][1..] == missing[k + 1..];
        if !Packable(missing[k]) {
          assert done + [] == done;
          return Raised;
        }
        var data := ChunkData(t.file, t.chunkSize, missing[k]);
        published := published + [ChunkFrame(missing[k], sha(data), data)];
        done := done + [PublishedChunk(sha, t, missing[k])];
      }
      assert missing[..|missing|] == missing;
      Arrive(beforeClear);
      ClearAck();
      Arrive(afterRetry);
      return Returned(ackEvent && ackData.Some? && ackData.value.status == Some(SUCCESS));
    }
  }

  // The outcome in words

  /**
   The call returns True exactly when the last ACK read first says "success", or it names missing chunks that
   can all be packed and the last ACK read after the retry says "success".
   */
  lemma TrueIff(t: Transfer, first: seq<AckBody>, afterRetry: seq<AckBody>)
    requires t.chunkSize >= 1
    ensures OutcomeOf(t, first, afterRetry) == Returned(true)
            <==> && Total(t) <= 0x1_0000_0000 && first != []
                 && var ack := first[|first| - 1];
                    || ack.status == Some("success")
                    || (&& ack.missingChunks != []
                        && (forall k :: 0 <= k < |ack.missingChunks| ==> 0 <= ack.missingChunks[k] < 0x1_0000_0000)
                        && afterRetry != [] && afterRetry[|afterRetry| - 1].status == Some("success"))
  {
  }

  /** It raises exactly when an index does not fit in 32 bits, of a published chunk or of one to be retried. */
  lemma RaisesIff(t: Transfer, first: seq<AckBody>, afterRetry: seq<AckBody>)
    requires t.chunkSize >= 1
    ensures OutcomeOf(t, first, afterRetry) == Raised
            <==> || Total(t) > 0x1_0000_0000
                 || (first != []
                     && var ack := first[|first| - 1];
                        ack.status != Some("success")
                        && exists k :: 0 <= k < |ack.missingChunks| && !(0 <= ack.missingChunks[k] < 0x1_0000_0000))
  {
  }

  /** What is retried: the chunks at the missing indices, as they were published, if all can be packed. */
  lemma {:induction false} RetriedAreMissing(sha: HashFunction, t: Transfer, missing: seq<int>)
    requires forall k :: 0 <= k < |missing| ==> 0 <= missing[k] < TWO_TO_32
    ensures |RetriedChunks(sha, t, missing)| == |missing|
    ensures forall k :: 0 <= k < |missing| ==> RetriedChunks(sha, t, missing)[k] == PublishedChunk(sha, t, missing[k])
  {
    if missing != [] {
      RetriedAreMissing(sha, t, missing[1..]);
    }
  }

  /** The meta announces the file's name, size, hash and number of chunks. */
  lemma MetaAnnounces(sha: HashFunction, codec: Codec, t: Transfer)
    requires Invertible(codec) && t.chunkSize >= 1
    ensures var frame := MetaFrame(sha, codec, t);
            && frame != [] && frame[0] == 1
            && codec.decode(frame[1..])
               == Fields(Some(t.filename), Some((|t.file| + t.chunkSize - 1) / t.chunkSize), Some(|t.file|), Some(sha(t.file)),
                         Some(t.chunkSize))
  {
    assert MetaFrame(sha, codec, t)[1..] == codec.encode(MetaOf(sha, t));
  }

  /** ACKs travel with type byte 3, a success as "success" and an error as "error" with its missing chunks. */
  lemma AckFrames(codec: AckCodec, filename: Option<string>, missing: seq<nat>, file: Bytes)
    ensures AckPayloads(codec, [SuccessAck(filename)]) == [[3] + codec.encode(AckBody(filename, Some("success"), []))]
    ensures AckPayloads(codec, [ErrorAck(filename, missing)]) == [[3] + codec.encode(AckBody(filename, Some("error"), missing))]
    ensures AckPayloads(codec, [HandOver(file)]) == []
  {
    assert [SuccessAck(filename)][1..] == [] && [ErrorAck(filename, missing)][1..] == [] && [HandOver(file)][1..] == [];
  }

  /** Only messages with type byte 3 are taken for ACKs. */
  lemma OnlyAcksParse(codec: AckCodec, payload: Bytes)
    ensures ParseAck(codec, payload) == if payload != [] && payload[0] == 3 then codec.decode(payload[1..]) else None
  {
  }

  // What True means

  lemma SuccessStep(sha: HashFunction, decode: Bytes -> MetaJson, s: State, payload: Bytes)
    requires s.tempDir.Some? && !Dispatch(payload).MetaMessage?
    ensures var step := OnMessage(sha, decode, s, payload);
            if NoSuccess(step.events) then step.state.tempDir.Some? && step.state.expected == s.expected
            else step.state == EMPTY && exists file :: HandOver(file) in step.events && Some(sha(file)) == s.expected
  {
    match Dispatch(payload) {
      case ChunkMessage(body) => {
        var step := OnChunk(sha, s, body);
        if |step.events| == 2 {
          assert step.events[0] in step.events && HandOver(step.events[1].file) in step.events;
        }
      }
      case _ => {
      }
    }
  }

  lemma {:induction false} SuccessBringsFile(sha: HashFunction, decode: Bytes -> MetaJson, s: State, payloads: seq<Bytes>)
    requires s.tempDir.Some? && NoMeta(payloads)
    ensures var events := OnMessages(sha, decode, s, payloads).events;
            NoSuccess(events) || exists file :: HandOver(file) in events && Some(sha(file)) == s.expected
    decreases |payloads|
  {
    if payloads != [] {
      MembersOfRest(payloads);
      var step := OnMessage(sha, decode, s, payloads[0]);
      SuccessStep(sha, decode, s, payloads[0]);
      if NoSuccess(step.events) {
        SuccessBringsFile(sha, decode, step.state, payloads[1..]);
      }
    }
  }

  /** Some ACK among those read reports success. */
  ghost predicate SomeSuccess(acks: seq<AckBody>) {
    exists a :: a in acks && a.status == Some("success")
  }

  /** ACKs that the receiver sent for these events. */
  ghost predicate SentFor(acks: seq<AckBody>, codec: AckCodec, events: seq<Event>) {
    forall a :: a in acks ==> a in ParseAcks(codec, AckPayloads(codec, events))
  }

  lemma TrueHasSuccess(t: Transfer, first: seq<AckBody>, afterRetry: seq<AckBody>)
    requires t.chunkSize >= 1 && OutcomeOf(t, first, afterRetry) == Returned(true)
    ensures SomeSuccess(first) || SomeSuccess(afterRetry)
  {
    TrueIff(t, first, afterRetry);
    assert first[|first| - 1] in first;
    assert afterRetry != [] ==> afterRetry[|afterRetry| - 1] in afterRetry;
  }

  lemma NoSuccessNoAck(codec: AckCodec, events: seq<Event>, acks: seq<AckBody>)
    requires AcksInvertible(codec) && NoSuccess(events) && SentFor(acks, codec, events)
    ensures !SomeSuccess(acks)
  {
    AcksRoundTrip(codec, events);
    OnlyErrorsAckErrors(events);
    ErrorIsNotSuccess();
  }

  ghost predicate HandsOver(sha: HashFunction, events: seq<Event>, digest: Bytes) {
    exists file :: HandOver(file) in events && sha(file) == digest
  }

  lemma EventsAfterMeta(sha: HashFunction, codec: Codec, t: Transfer, before: State, delivered: seq<Bytes>)
    requires Invertible(codec) && t.chunkSize >= 1 && NoMeta(delivered)
    ensures var events := OnMessages(sha, codec.decode, before, [MetaFrame(sha, codec, t)] + delivered).events;
            NoSuccess(events) || HandsOver(sha, events, sha(t.file))
  {
    var started := OnMessage(sha, codec.decode, before, MetaFrame(sha, codec, t)).state;
    MetaStartsTransfer(sha, codec, t, before);
    assert ([MetaFrame(sha, codec, t)] + delivered)[1..] == delivered;
    SuccessBringsFile(sha, codec.decode, started, delivered);
  }

  /**
   Whatever messages but another meta reach the receiver after this one, of whatever origin and in whatever
   order: when the call returns True, some ACK it read reports success, and the receiver handed over a file
   with the hash of the one that was sent.
   */
  lemma TrueMeansHandedOver(sha: HashFunction, codec: Codec, ackCodec: AckCodec, t: Transfer, before: State,
                            delivered: seq<Bytes>, events: seq<Event>, first: seq<AckBody>, afterRetry: seq<AckBody>)
    requires Invertible(codec) && AcksInvertible(ackCodec) && t.chunkSize >= 1 && NoMeta(delivered)
    requires events == OnMessages(sha, codec.decode, before, [MetaFrame(sha, codec, t)] + delivered).events
    requires SentFor(first, ackCodec, events) && SentFor(afterRetry, ackCodec, events)
    requires OutcomeOf(t, first, afterRetry) == Returned(true)
    ensures SomeSuccess(first) || SomeSuccess(afterRetry)
    ensures HandsOver(sha, events, sha(t.file))
  {
    EventsAfterMeta(sha, codec, t, before, delivered);
    TrueNeedsSuccess(ackCodec, t, events, first, afterRetry);
  }

  lemma TrueNeedsSuccess(codec: AckCodec, t: Transfer, events: seq<Event>, first: seq<AckBody>, afterRetry: seq<AckBody>)
    requires AcksInvertible(codec) && t.chunkSize >= 1
    requires SentFor(first, codec, events) && SentFor(afterRetry, codec, events)
    requires OutcomeOf(t, first, afterRetry) == Returned(true)
    ensures (SomeSuccess(first) || SomeSuccess(afterRetry)) && !NoSuccess(events)
  {
    TrueHasSuccess(t, first, afterRetry);
    if NoSuccess(events) {
      NoSuccessNoAck(codec, events, first);
      NoSuccessNoAck(codec, events, afterRetry);
    }
  }

  lemma ErrorIsNotSuccess()
    ensures "success" != ERROR
  {
    assert |ERROR| == 5 && |"success"| == 7;
  }

  // End to end

  /** ACKs the distributor has seen so far are the first few of those the receiver sent. */
  ghost predicate ArrivedSoFar(acks: seq<AckBody>, codec: AckCodec, events: seq<Event>) {
    acks <= ParseAcks(codec, AckPayloads(codec, events))
  }

  lemma AcksOfDelivery(filename: Option<string>, file: Bytes)
    ensures AcksIn([SuccessAck(filename), HandOver(file)]) == [AckBody(filename, Some(SUCCESS), [])]
  {
    var events := [SuccessAck(filename), HandOver(file)];
    assert events[1..] == [HandOver(file)] && events[1..][1..] == [];
    assert AcksIn(events[1..]) == [];
  }

  /**
   From an empty channel, with the chunks delivered in any order, duplicated, corrupted or lost, the
   distributor returns True for a non-empty file unless the wait times out, that is, unless no ACK has
   arrived. The receiver hands over the file exactly when no chunk is lost for good, and it has done so
   whenever the distributor returns True.
   */
  lemma DistributionSucceedsUnlessTimeout(sha: HashFunction, codec: Codec, ackCodec: AckCodec, t: Transfer, before: State,
                                          delivered: seq<Bytes>, first: seq<AckBody>, afterRetry: seq<AckBody>)
    requires DigestLength(sha) && Invertible(codec) && AcksInvertible(ackCodec) && Sendable(t) && t.file != []
    requires FromTransfer(sha, t, delivered)
    requires ArrivedSoFar(first, ackCodec,
                          OnMessages(sha, codec.decode, before, [MetaFrame(sha, codec, t)] + delivered).events)
    ensures OutcomeOf(t, first, afterRetry) == Returned(first != [])
    ensures var handedOver := HandOver(t.file) in OnMessages(sha, codec.decode, before, [MetaFrame(sha, codec, t)] + delivered).events;
            && (handedOver <==> CoversAll(sha, t, delivered))
            && (OutcomeOf(t, first, afterRetry) == Returned(true) ==> handedOver)
  {
    DeliveredIffCovered(sha, codec, t, before, delivered);
    AcksRoundTrip(ackCodec, OnMessages(sha, codec.decode, before, [MetaFrame(sha, codec, t)] + delivered).events);
    if CoversAll(sha, t, delivered) {
      AcksOfDelivery(Some(t.filename), t.file);
      assert first != [] ==> first[|first| - 1] == AckBody(Some(t.filename), Some(SUCCESS), []);
    }
  }

  lemma {:induction false} OnlyErrorsAckErrors(events: seq<Event>)
    requires NoSuccess(events)
    ensures forall a :: a in AcksIn(events) ==> a.status == Some(ERROR)
  {
    if events != [] {
      assert events[0] in events;
      OnlyErrorsAckErrors(events[1..]);
    }
  }

  /**
   A retry never succeeds. When the receiver's error ACK named missing chunks, then whatever part of the
   retried chunks reaches the receiver, in whatever order, every ACK that follows is an error and the
   distributor returns False (or raises), although the documentation promises that missing chunks are retried.
   When it named none, as after a hash mismatch, nothing is retried and the distributor returns False.
   */
  lemma RetryNeverSucceeds(sha: HashFunction, codec: Codec, ackCodec: AckCodec, t: Transfer, s: State, body: Bytes,
                           filename: Option<string>, missing: seq<nat>, delivered: seq<Bytes>,
                           first: seq<AckBody>, afterRetry: seq<AckBody>)
    requires AcksInvertible(ackCodec) && t.chunkSize >= 1 && Consistent(s)
    requires ErrorAck(filename, missing) in OnChunk(sha, s, body).events
    requires first != [] && first[|first| - 1] == BodyOf(ErrorAck(filename, missing))
    requires NoMeta(delivered)
    requires forall a :: a in afterRetry ==>
      a in ParseAcks(ackCodec, AckPayloads(ackCodec,
             OnMessages(sha, codec.decode, OnChunk(sha, s, body).state, delivered).events))
    ensures OutcomeOf(t, first, afterRetry) != Returned(true)
    ensures missing == [] && Total(t) <= TWO_TO_32 ==> OutcomeOf(t, first, afterRetry) == Returned(false)
  {
    assert SUCCESS != ERROR by {
      assert |ERROR| == 5 && |SUCCESS| == 7;
    }
    if missing == [] {
      return;
    }
    var events := OnMessages(sha, codec.decode, OnChunk(sha, s, body).state, delivered).events;
    ResendingMissingChunksIsFutile(sha, codec.decode, s, body, filename, missing, delivered);
    AcksRoundTrip(ackCodec, events);
    OnlyErrorsAckErrors(events);
  }

  /** A chunk of an earlier, larger transfer that arrives after the meta of a file of one chunk. */
  lemma LateChunkIsAccepted(sha: HashFunction, codec: Codec, t: Transfer, earlier: Transfer, j: nat, before: State)
    requires DigestLength(sha) && Invertible(codec) && Sendable(t) && Sendable(earlier)
    requires Total(t) == 1 && 1 <= j < Total(earlier)
    ensures var started := OnMessage(sha, codec.decode, before, MetaFrame(sha, codec, t)).state;
            var step := OnMessage(sha, codec.decode, started, PublishedChunk(sha, earlier, j));
            && step.events == [ErrorAck(Some(t.filename), [0])]
            && Poisoned(step.state) && step.state.received == {j}
  {
    MetaStartsTransfer(sha, codec, t, before);
    PublishedChunkIsIntact(sha, earlier, j);
    var started := OnMessage(sha, codec.decode, before, MetaFrame(sha, codec, t)).state;
    var late := Chunk(j, sha(ChunkData(earlier.file, earlier.chunkSize, j)), ChunkData(earlier.file, earlier.chunkSize, j));
    var accepted := Accept(started, late);
    assert accepted.received == {j};
    assert 0 !in accepted.tempDir.value;
    assert JoinFiles(accepted.tempDir.value, 1).None?;
    assert MissingBelow({j}, 1) == [0];
  }

  lemma TwoThenRest(sha: HashFunction, decode: Bytes -> MetaJson, s: State, a: Bytes, b: Bytes, rest: seq<Bytes>)
    ensures var first := OnMessage(sha, decode, s, a);
            var second := OnMessage(sha, decode, first.state, b);
            OnMessages(sha, decode, s, [a, b] + rest).events
            == first.events + (second.events + OnMessages(sha, decode, second.state, rest).events)
  {
    assert ([a, b] + rest)[1..] == [b] + rest;
    assert ([b] + rest)[1..] == rest;
  }

  /** The one chunk of the file, on top of an out-of-range index, is accepted too and causes nothing. */
  lemma ChunkAfterPoison(sha: HashFunction, decode: Bytes -> MetaJson, t: Transfer, s: State)
    requires DigestLength(sha) && Sendable(t) && Total(t) == 1 && s.totalChunks == 1 && Poisoned(s)
    ensures var step := OnMessage(sha, decode, s, PublishedChunk(sha, t, 0));
            step.events == [] && step.state.totalChunks == 1 && Poisoned(step.state)
  {
    PublishedChunkIsIntact(sha, t, 0);
    PoisonStays(sha, decode, s, PublishedChunk(sha, t, 0));
    var i :| i in s.received && i >= 1;
    TwoIndices(s.received + {0}, 0, i);
  }

  lemma {:induction false} NothingAfterwards(sha: HashFunction, decode: Bytes -> MetaJson, t: Transfer, s: State,
                                             chunk: Bytes, again: seq<Bytes>)
    requires DigestLength(sha) && Sendable(t) && Total(t) == 1 && s.totalChunks == 1 && Poisoned(s)
    requires chunk == PublishedChunk(sha, t, 0) && forall p :: p in again ==> p == chunk
    ensures OnMessages(sha, decode, s, again).events == []
    decreases |again|
  {
    if again != [] {
      MembersOfRest(again);
      ChunkAfterPoison(sha, decode, t, s);
      NothingAfterwards(sha, decode, t, OnMessage(sha, decode, s, chunk).state, chunk, again[1..]);
    }
  }

  lemma ErrorAckFails(ackCodec: AckCodec, t: Transfer, filename: Option<string>)
    requires AcksInvertible(ackCodec) && t.chunkSize >= 1 && Total(t) <= TWO_TO_32
    ensures OutcomeOf(t, ParseAcks(ackCodec, AckPayloads(ackCodec, [ErrorAck(filename, [0])])), []) == Returned(false)
  {
    var events := [ErrorAck(filename, [0])];
    AcksRoundTrip(ackCodec, events);
    assert events[1..] == [];
    assert AcksIn(events) == [BodyOf(events[0])];
    assert SUCCESS != ERROR by {
      assert |SUCCESS| == 7 && |ERROR| == 5;
    }
  }

  /**
   Error ACKs that name missing chunks do occur, over a channel that only delays: the late chunk makes the
   receiver report chunk 0 as missing. Chunk 0 itself, and chunk 0 again as often as a retry sends it, then
   change nothing, and the distributor returns False.
   */
  lemma LateChunkDefeatsTransfer(sha: HashFunction, codec: Codec, ackCodec: AckCodec, t: Transfer, earlier: Transfer,
                                 j: nat, before: State, again: seq<Bytes>)
    requires DigestLength(sha) && Invertible(codec) && AcksInvertible(ackCodec) && Sendable(t) && Sendable(earlier)
    requires Total(t) == 1 && 1 <= j < Total(earlier)
    requires forall p :: p in again ==> p == PublishedChunk(sha, t, 0)
    ensures var delivered := [MetaFrame(sha, codec, t), PublishedChunk(sha, earlier, j)] + again;
            var events := OnMessages(sha, codec.decode, before, delivered).events;
            && events == [ErrorAck(Some(t.filename), [0])]
            && OutcomeOf(t, ParseAcks(ackCodec, AckPayloads(ackCodec, events)), []) == Returned(false)
  {
    var meta, late := MetaFrame(sha, codec, t), PublishedChunk(sha, earlier, j);
    var started := OnMessage(sha, codec.decode, before, meta).state;
    LateChunkIsAccepted(sha, codec, t, earlier, j, before);
    MetaStartsTransfer(sha, codec, t, before);
    var poisoned := OnMessage(sha, codec.decode, started, late).state;
    NothingAfterwards(sha, codec.decode, t, poisoned, PublishedChunk(sha, t, 0), again);
    TwoThenRest(sha, codec.decode, before, meta, late, again);
    ErrorAckFails(ackCodec, t, Some(t.filename));
  }

  /** Such a transfer, from the state in which a receiver starts: two chunks announced earlier, one now. */
  lemma LateChunkExample(sha: HashFunction, codec: Codec, filename: string, file: Bytes, previous: Bytes)
    requires DigestLength(sha) && Invertible(codec) && |file| == 1 && |previous| == 2
    ensures var t, earlier := Transfer(filename, file, 1), Transfer(filename, previous, 1);
            && Sendable(t) && Sendable(earlier)
            && OnMessages(sha, codec.decode, EMPTY, [MetaFrame(sha, codec, t), PublishedChunk(sha, earlier, 1)]).events
               == [ErrorAck(Some(filename), [0])]
  {
    var t, earlier := Transfer(filename, file, 1), Transfer(filename, previous, 1);
    assert Total(t) == 1 && Total(earlier) == 2;
    LateChunkIsAccepted(sha, codec, t, earlier, 1, EMPTY);
    MetaStartsTransfer(sha, codec, t, EMPTY);
    TwoThenRest(sha, codec.decode, EMPTY, MetaFrame(sha, codec, t), PublishedChunk(sha, earlier, 1), []);
    assert [MetaFrame(sha, codec, t), PublishedChunk(sha, earlier, 1)] + [] == [MetaFrame(sha, codec, t), PublishedChunk(sha, earlier, 1)];
  }

  lemma TwoIndices(indices: set<nat>, i: nat, j: nat)
    requires i in indices && j in indices && i != j
    ensures |indices| > 1
  {
    assert {i, j} <= indices;
    assert |indices| == |{i, j}| + |indices - {i, j}| by { assert indices == {i, j} + (indices - {i, j}); }
  }

  /** An empty file is never acknowledged, so its distribution always times out. */
  lemma EmptyFileTimesOut(sha: HashFunction, codec: Codec, ackCodec: AckCodec, t: Transfer, before: State,
                          first: seq<AckBody>, afterRetry: seq<AckBody>)
    requires DigestLength(sha) && Invertible(codec) && AcksInvertible(ackCodec) && Sendable(t) && t.file == []
    requires ArrivedSoFar(first, ackCodec, OnMessages(sha, codec.decode, before, Published(sha, codec, t)).events)
    ensures OutcomeOf(t, first, afterRetry) == Returned(false)
  {
    AcknowledgedIffNonEmpty(sha, codec, t, before);
    AcksRoundTrip(ackCodec, OnMessages(sha, codec.decode, before, Published(sha, codec, t)).events);
  }
}
