/** What the receiver guarantees over any message sequence: lost, repeated, reordered or interleaved. */
module ReceiverSafety {
  import opened Prelude
  import opened Wire
  import opened Receiver

  // One message

  /** The chunk files on disk are exactly the accepted indices. */
  ghost predicate Consistent(s: State) {
    s.tempDir.Some? ==> s.received == s.tempDir.value.Keys
  }

  lemma AcceptIsConsistent(s: State, c: Chunk)
    requires s.tempDir.Some? && Consistent(s)
    ensures Consistent(Accept(s, c))
  {
    assert s.tempDir.value[c.index := c.data].Keys == s.tempDir.value.Keys + {c.index};
  }

  lemma ConsistentAfterChunk(sha: HashFunction, s: State, body: Bytes)
    requires Consistent(s)
    ensures Consistent(OnChunk(sha, s, body).state)
  {
    var c := IntactChunk(sha, body);
    if c.Some? && s.tempDir.Some? {
      AcceptIsConsistent(s, c.value);
    }
  }

  lemma ConsistentAfterMeta(s: State, json: MetaJson)
    requires Consistent(s)
    ensures Consistent(OnMeta(s, json))
  {
  }

  lemma ConsistencyKept(sha: HashFunction, decode: Bytes -> MetaJson, s: State, payload: Bytes)
    requires Consistent(s)
    ensures Consistent(OnMessage(sha, decode, s, payload).state)
  {
    match Dispatch(payload)
    case MetaMessage(body) => ConsistentAfterMeta(s, decode(body));
    case ChunkMessage(body) => ConsistentAfterChunk(sha, s, body);
    case Ignored =>
  }

  lemma {:induction false} JoinsIffPresent(files: map<nat, Bytes>, n: int)
    ensures JoinFiles(files, n).Some? <==> forall i: nat :: i < n ==> i in files
  {
    if n > 0 {
      JoinsIffPresent(files, n - 1);
    }
  }

  function Below(received: set<nat>, n: int): set<nat> {
    set i | i in received && i < n
  }

  function AtOrAbove(received: set<nat>, n: int): set<nat> {
    set i | i in received && i >= n
  }

  lemma {:induction false} MissingMembers(received: set<nat>, n: int, i: nat)
    ensures i in MissingBelow(received, n) <==> i < n && i !in received
  {
    if n > 0 {
      MissingMembers(received, n - 1, i);
    }
  }

  lemma {:induction false} MissingLength(received: set<nat>, n: nat)
    ensures |MissingBelow(received, n)| == n - |Below(received, n)|
  {
    if n == 0 {
      assert Below(received, 0) == {};
    } else {
      MissingLength(received, n - 1);
      if n - 1 in received {
        assert Below(received, n) == Below(received, n - 1) + {n - 1};
      } else {
        assert Below(received, n) == Below(received, n - 1);
      }
    }
  }

  /** Among n accepted indices, as many lie outside the first n as the first n lack. */
  lemma Pigeonhole(received: set<nat>)
    ensures |MissingBelow(received, |received|)| == |AtOrAbove(received, |received|)|
  {
    var n := |received|;
    MissingLength(received, n);
    assert received == Below(received, n) + AtOrAbove(received, n);
    assert Below(received, n) !! AtOrAbove(received, n);
  }

  /**
   Every error ACK lists exactly the indices below the total that were not accepted, and there are as
   many of them as accepted indices at or above the total.
   */
  lemma ErrorAckCountsOutOfRange(sha: HashFunction, s: State, body: Bytes, filename: Option<string>, missing: seq<nat>)
    requires Consistent(s) && ErrorAck(filename, missing) in OnChunk(sha, s, body).events
    ensures var accepted := OnChunk(sha, s, body).state.received;
            && (forall i: nat :: i in missing <==> i < s.totalChunks && i !in accepted)
            && |missing| == |AtOrAbove(accepted, s.totalChunks)|
  {
    var accepted := OnChunk(sha, s, body).state.received;
    Pigeonhole(accepted);
    forall i: nat ensures i in missing <==> i < s.totalChunks && i !in accepted {
      MissingMembers(accepted, s.totalChunks, i);
    }
  }

  /** When every index below the number of accepted ones is accepted, no others are. */
  lemma AllPresentIsExact(received: set<nat>)
    requires forall i: nat :: i < |received| ==> i in received
    ensures forall i :: i in received ==> i < |received|
  {
    Pigeonhole(received);
    var missing := MissingBelow(received, |received|);
    if missing != [] {
      MissingMembers(received, |received|, missing[0]);
    }
    assert AtOrAbove(received, |received|) == {};
    forall i | i in received ensures i < |received| {
      assert i !in AtOrAbove(received, |received|);
    }
  }

  /** A success ACK means the accepted indices were exactly 0 to total - 1, and comes with the verified file. */
  lemma SuccessMeansExactlyAll(sha: HashFunction, s: State, body: Bytes, filename: Option<string>)
    requires Consistent(s) && SuccessAck(filename) in OnChunk(sha, s, body).events
    ensures var c := IntactChunk(sha, body);
            && c.Some? && s.tempDir.Some?
            && (forall i: nat :: i in s.received + {c.value.index} <==> i < s.totalChunks)
            && exists file :: OnChunk(sha, s, body) == Step(EMPTY, [SuccessAck(s.filename), HandOver(file)])
                              && Some(sha(file)) == s.expected
  {
    var c := IntactChunk(sha, body).value;
    var s' := Accept(s, c);
    AcceptIsConsistent(s, c);
    var joined := JoinFiles(s'.tempDir.value, s'.totalChunks);
    JoinsIffPresent(s'.tempDir.value, s'.totalChunks);
    AllPresentIsExact(s'.received);
    assert OnChunk(sha, s, body) == Step(EMPTY, [SuccessAck(s.filename), HandOver(joined.value)]);
  }

  lemma {:induction false} MissingAscending(received: set<nat>, n: int)
    ensures forall j, k :: 0 <= j < k < |MissingBelow(received, n)| ==> MissingBelow(received, n)[j] < MissingBelow(received, n)[k]
    ensures forall j :: 0 <= j < |MissingBelow(received, n)| ==> MissingBelow(received, n)[j] < n
  {
    if n > 0 {
      MissingAscending(received, n - 1);
    }
  }

  /** file is the contents of chunk files 0 to n - 1 end to end. */
  ghost predicate IsJoin(files: map<nat, Bytes>, n: nat, file: Bytes) {
    if n == 0 then file == []
    else n - 1 in files && |files[n - 1]| <= |file|
         && file[|file| - |files[n - 1]|..] == files[n - 1] && IsJoin(files, n - 1, file[..|file| - |files[n - 1]|])
  }

  lemma {:induction false} JoinFilesIsJoin(files: map<nat, Bytes>, n: nat)
    ensures JoinFiles(files, n).Some? ==> IsJoin(files, n, JoinFiles(files, n).value)
  {
    if n > 0 && JoinFiles(files, n).Some? {
      JoinFilesIsJoin(files, n - 1);
      var before := JoinFiles(files, n - 1).value;
      assert (before + files[n - 1])[..|before|] == before && (before + files[n - 1])[|before|..] == files[n - 1];
    }
  }

  /** A chunk message that is too short, fails its hash, or comes without a transfer under way changes nothing. */
  lemma UnusableChunk(sha: HashFunction, s: State, body: Bytes)
    requires |body| < 36 || sha(body[36..]) != body[4..36] || s.tempDir.None?
    ensures OnChunk(sha, s, body) == Step(s, [])
  {
  }

  /** While the number of accepted indices is not the total, a chunk is kept and nothing is sent. */
  lemma ChunkIsKept(sha: HashFunction, s: State, body: Bytes)
    requires |body| >= 36 && sha(body[36..]) == body[4..36] && s.tempDir.Some?
    requires |s.received + {UnpackU32(body[..4])}| != s.totalChunks
    ensures var i := UnpackU32(body[..4]);
            OnChunk(sha, s, body)
            == Step(s.(received := s.received + {i}, tempDir := Some(s.tempDir.value[i := body[36..]])), [])
  {
  }

  /**
   When it is, exactly one ACK is sent. If chunk files 0 to total - 1 are all there and joined have the announced hash,
   it is a success, the joined file is handed over, and the state is cleared. Otherwise, be it a missing file or a
   wrong hash, it is an error that lists the missing indices in ascending order, and everything is kept.
   */
  lemma FullCountSendsOneAck(sha: HashFunction, s: State, body: Bytes)
    requires |body| >= 36 && sha(body[36..]) == body[4..36] && s.tempDir.Some?
    requires |s.received + {UnpackU32(body[..4])}| == s.totalChunks
    ensures var i, step := UnpackU32(body[..4]), OnChunk(sha, s, body);
            var received, files := s.received + {i}, s.tempDir.value[i := body[36..]];
            if step.state == State(None, 0, 0, None, 0, {}, None) && |step.events| == 2
            then exists file :: IsJoin(files, s.totalChunks, file) && Some(sha(file)) == s.expected
                                && step.events == [SuccessAck(s.filename), HandOver(file)]
            else && (forall file :: IsJoin(files, s.totalChunks, file) ==> Some(sha(file)) != s.expected)
                 && step.state == s.(received := received, tempDir := Some(files))
                 && |step.events| == 1 && step.events[0].ErrorAck? && step.events[0].filename == s.filename
                 && ListsMissing(step.events[0].missing, received, s.totalChunks)
  {
    var i := UnpackU32(body[..4]);
    var s' := s.(received := s.received + {i}, tempDir := Some(s.tempDir.value[i := body[36..]]));
    assert OnChunk(sha, s, body) == Assemble(sha, s');
    AssembleSendsOneAck(sha, s');
  }

  /** missing lists the indices below n that have not been received, in ascending order. */
  ghost predicate ListsMissing(missing: seq<nat>, received: set<nat>, n: int) {
    && (forall k: nat :: k in missing <==> k < n && k !in received)
    && (forall j, k :: 0 <= j < k < |missing| ==> missing[j] < missing[k])
  }

  lemma MissingIsListed(received: set<nat>, n: nat)
    ensures ListsMissing(MissingBelow(received, n), received, n)
  {
    MissingAscending(received, n);
    forall k: nat ensures k in MissingBelow(received, n) <==> k < n && k !in received {
      MissingMembers(received, n, k);
    }
  }

  lemma OnlyOneJoin(files: map<nat, Bytes>, n: nat)
    ensures forall file :: IsJoin(files, n, file) <==> JoinFiles(files, n) == Some(file)
  {
    JoinFilesIsJoin(files, n);
    forall file | IsJoin(files, n, file) ensures JoinFiles(files, n) == Some(file) {
      JoinIsJoinFiles(files, n, file);
    }
  }

  lemma AssembleSendsOneAck(sha: HashFunction, s: State)
    requires s.tempDir.Some? && s.totalChunks >= 0
    ensures var step := Assemble(sha, s);
            if step.state == State(None, 0, 0, None, 0, {}, None) && |step.events| == 2
            then exists file :: IsJoin(s.tempDir.value, s.totalChunks, file) && Some(sha(file)) == s.expected
                                && step.events == [SuccessAck(s.filename), HandOver(file)]
            else && (forall file :: IsJoin(s.tempDir.value, s.totalChunks, file) ==> Some(sha(file)) != s.expected)
                 && step.state == s
                 && |step.events| == 1 && step.events[0].ErrorAck? && step.events[0].filename == s.filename
                 && ListsMissing(step.events[0].missing, s.received, s.totalChunks)
  {
    OnlyOneJoin(s.tempDir.value, s.totalChunks);
    MissingIsListed(s.received, s.totalChunks);
  }

  lemma {:induction false} JoinIsJoinFiles(files: map<nat, Bytes>, n: nat, file: Bytes)
    requires IsJoin(files, n, file)
    ensures JoinFiles(files, n) == Some(file)
  {
    if n > 0 {
      var k := |file| - |files[n - 1]|;
      JoinIsJoinFiles(files, n - 1, file[..k]);
      CutAt(file, k);
    }
  }

  /**
   What a meta message stores, field by field: each field needs its own key and those of the fields before it.
   Only a meta with all five keys starts a transfer, with nothing received; any other leaves chunks and indices alone.
   */
  lemma MetaStoresFields(s: State, filename: Option<string>, totalChunks: Option<int>, totalSize: Option<int>,
                         sha256: Option<Bytes>, chunkSize: Option<int>)
    ensures var s' := OnMeta(s, Fields(filename, totalChunks, totalSize, sha256, chunkSize));
            var toChunks := filename.Some? && totalChunks.Some?;
            var toSha := toChunks && totalSize.Some? && sha256.Some?;
            && s'.filename == (if filename.Some? then filename else s.filename)
            && s'.totalChunks == (if toChunks then totalChunks.value else s.totalChunks)
            && s'.totalSize == (if toChunks && totalSize.Some? then totalSize.value else s.totalSize)
            && s'.expected == (if toSha then sha256 else s.expected)
            && s'.chunkSize == (if toSha && chunkSize.Some? then chunkSize.value else s.chunkSize)
            && (if toSha && chunkSize.Some? then s'.received == {} && s'.tempDir == Some(map[])
                else s'.received == s.received && s'.tempDir == s.tempDir)
    ensures OnMeta(s, Undecodable) == s
  {
  }

  // Message sequences

  lemma {:induction false} OneMoreMessage(sha: HashFunction, decode: Bytes -> MetaJson, s: State, payloads: seq<Bytes>, last: Bytes)
    ensures var before := OnMessages(sha, decode, s, payloads);
            var step := OnMessage(sha, decode, before.state, last);
            OnMessages(sha, decode, s, payloads + [last]) == Step(step.state, before.events + step.events)
    decreases |payloads|
  {
    if payloads == [] {
      assert payloads + [last] == [last];
      assert [last][1..] == [];
    } else {
      var first := OnMessage(sha, decode, s, payloads[0]);
      DropFirstOfAppend(payloads, [last]);
      OneMoreMessage(sha, decode, first.state, payloads[1..], last);
      var before := OnMessages(sha, decode, first.state, payloads[1..]);
      AppendAssociative(first.events, before.events, OnMessage(sha, decode, before.state, last).events);
    }
  }

  ghost predicate NoMeta(payloads: seq<Bytes>) {
    forall p :: p in payloads ==> !Dispatch(p).MetaMessage?
  }

  ghost predicate NoSuccess(events: seq<Event>) {
    forall e :: e in events ==> e.ErrorAck?
  }

  /** The index a message contributes, if it is an intact chunk. */
  function IntactIndex(sha: HashFunction, payload: Bytes): set<nat> {
    match Dispatch(payload)
    case ChunkMessage(body) => if IntactChunk(sha, body).Some? then {IntactChunk(sha, body).value.index} else {}
    case _ => {}
  }

  function IntactIndices(sha: HashFunction, payloads: seq<Bytes>): set<nat> {
    if payloads == [] then {} else IntactIndex(sha, payloads[0]) + IntactIndices(sha, payloads[1..])
  }

  lemma AcceptedByOne(sha: HashFunction, decode: Bytes -> MetaJson, s: State, payload: Bytes)
    requires s.tempDir.Some? && !Dispatch(payload).MetaMessage?
    requires NoSuccess(OnMessage(sha, decode, s, payload).events)
    ensures var s' := OnMessage(sha, decode, s, payload).state;
            && s'.tempDir.Some? && s'.totalChunks == s.totalChunks
            && s'.received == s.received + IntactIndex(sha, payload)
  {
    assert SuccessAck(s.filename) !in OnMessage(sha, decode, s, payload).events;
  }

  lemma NoSuccessSplit(a: seq<Event>, b: seq<Event>)
    requires NoSuccess(a + b)
    ensures NoSuccess(a) && NoSuccess(b)
  {
    assert forall e :: e in a || e in b ==> e in a + b;
  }

  /** Between a meta and the next success or meta, the accepted indices are those of the intact chunks received. */
  lemma {:induction false} AcceptedSinceMeta(sha: HashFunction, decode: Bytes -> MetaJson, s: State, payloads: seq<Bytes>)
    requires s.tempDir.Some? && NoMeta(payloads) && NoSuccess(OnMessages(sha, decode, s, payloads).events)
    ensures var s' := OnMessages(sha, decode, s, payloads).state;
            && s'.tempDir.Some? && s'.totalChunks == s.totalChunks
            && s'.received == s.received + IntactIndices(sha, payloads)
    decreases |payloads|
  {
    if payloads != [] {
      var first := OnMessage(sha, decode, s, payloads[0]);
      NoSuccessSplit(first.events, OnMessages(sha, decode, first.state, payloads[1..]).events);
      AcceptedByOne(sha, decode, s, payloads[0]);
      AcceptedSinceMeta(sha, decode, first.state, payloads[1..]);
    }
  }

  /** Some accepted index lies outside the transfer. */
  ghost predicate Poisoned(s: State) {
    Consistent(s) && s.tempDir.Some? && exists i :: i in s.received && i >= s.totalChunks
  }

  lemma PoisonStays(sha: HashFunction, decode: Bytes -> MetaJson, s: State, payload: Bytes)
    requires Poisoned(s) && !Dispatch(payload).MetaMessage?
    ensures var step := OnMessage(sha, decode, s, payload);
            Poisoned(step.state) && step.state.totalChunks == s.totalChunks && NoSuccess(step.events)
  {
    ConsistencyKept(sha, decode, s, payload);
    if Dispatch(payload).ChunkMessage? {
      var body := Dispatch(payload).body;
      var i :| i in s.received && i >= s.totalChunks;
      var c := IntactChunk(sha, body);
      if SuccessAck(s.filename) in OnChunk(sha, s, body).events {
        SuccessMeansExactlyAll(sha, s, body, s.filename);
      }
      assert c.Some? ==> i in Accept(s, c.value).received;
    }
  }

  /** Once an out-of-range index is accepted, no success and no hand-over can come before the next meta. */
  lemma {:induction false} NoSuccessAfterOutOfRange(sha: HashFunction, decode: Bytes -> MetaJson, s: State, payloads: seq<Bytes>)
    requires Poisoned(s) && NoMeta(payloads)
    ensures NoSuccess(OnMessages(sha, decode, s, payloads).events)
    decreases |payloads|
  {
    if payloads != [] {
      PoisonStays(sha, decode, s, payloads[0]);
      NoSuccessAfterOutOfRange(sha, decode, OnMessage(sha, decode, s, payloads[0]).state, payloads[1..]);
    }
  }

  /**
   After an error ACK that names missing chunks, resending them (or anything else) without a new meta
   never leads to a success or a hand-over.
   */
  lemma ResendingMissingChunksIsFutile(sha: HashFunction, decode: Bytes -> MetaJson, s: State, body: Bytes,
                                       filename: Option<string>, missing: seq<nat>, payloads: seq<Bytes>)
    requires Consistent(s) && ErrorAck(filename, missing) in OnChunk(sha, s, body).events && missing != []
    requires NoMeta(payloads)
    ensures NoSuccess(OnMessages(sha, decode, OnChunk(sha, s, body).state, payloads).events)
  {
    var s' := OnChunk(sha, s, body).state;
    ErrorAckCountsOutOfRange(sha, s, body, filename, missing);
    assert AtOrAbove(s'.received, s.totalChunks) != {};
    var i :| i in AtOrAbove(s'.received, s.totalChunks);
    assert Poisoned(s');
    NoSuccessAfterOutOfRange(sha, decode, s', payloads);
  }

  // Hand-overs against metas

  /** The hash stored by the latest meta message that got as far as storing one. */
  function LatestSha(decode: Bytes -> MetaJson, payloads: seq<Bytes>): Option<Bytes> {
    if payloads == [] then None
    else
      var last := Dispatch(payloads[|payloads| - 1]);
      var before := LatestSha(decode, payloads[..|payloads| - 1]);
      if last.MetaMessage? && StoredSha(decode(last.body)).Some? then StoredSha(decode(last.body)) else before
  }

  function StoredSha(json: MetaJson): Option<Bytes> {
    if json.Fields? && json.filename.Some? && json.totalChunks.Some? && json.totalSize.Some? then json.sha256 else None
  }

  /** One message changes the expected hash only by storing a meta's; a new transfer always stores one. */
  lemma ExpectedAfterOne(sha: HashFunction, decode: Bytes -> MetaJson, s: State, payload: Bytes)
    ensures var s', m := OnMessage(sha, decode, s, payload).state, Dispatch(payload);
            s'.tempDir.Some? ==>
              if m.MetaMessage? && StoredSha(decode(m.body)).Some? then s'.expected == StoredSha(decode(m.body))
              else s.tempDir.Some? && s'.expected == s.expected
  {
  }

  lemma {:induction false} ExpectedIsLatest(sha: HashFunction, decode: Bytes -> MetaJson, payloads: seq<Bytes>)
    ensures var s := OnMessages(sha, decode, EMPTY, payloads).state;
            Consistent(s) && (s.tempDir.Some? ==> s.expected == LatestSha(decode, payloads))
  {
    if payloads != [] {
      var fewer, last := payloads[..|payloads| - 1], payloads[|payloads| - 1];
      ExpectedIsLatest(sha, decode, fewer);
      OneMoreMessage(sha, decode, EMPTY, fewer, last);
      assert payloads == fewer + [last];
      ExpectedAfterOne(sha, decode, OnMessages(sha, decode, EMPTY, fewer).state, last);
      ConsistencyKept(sha, decode, OnMessages(sha, decode, EMPTY, fewer).state, last);
    }
  }

  /** Over any messages at all, a file handed over by the next one hashes to the sha256 of the latest meta. */
  lemma HandedOverMatchesLatestMeta(sha: HashFunction, decode: Bytes -> MetaJson, payloads: seq<Bytes>, next: Bytes, file: Bytes)
    requires HandOver(file) in OnMessage(sha, decode, OnMessages(sha, decode, EMPTY, payloads).state, next).events
    ensures LatestSha(decode, payloads) == Some(sha(file))
  {
    var s := OnMessages(sha, decode, EMPTY, payloads).state;
    ExpectedIsLatest(sha, decode, payloads);
    assert SuccessAck(s.filename) in OnChunk(sha, s, Dispatch(next).body).events;
    SuccessMeansExactlyAll(sha, s, Dispatch(next).body, s.filename);
  }

  /** Every meta in the sequence announces one of the offered files. */
  ghost predicate OnlyOffers(sha: HashFunction, decode: Bytes -> MetaJson, payloads: seq<Bytes>, offered: set<Bytes>) {
    forall p :: p in payloads && Dispatch(p).MetaMessage? && StoredSha(decode(Dispatch(p).body)).Some? ==>
      exists file :: file in offered && StoredSha(decode(Dispatch(p).body)) == Some(sha(file))
  }

  lemma {:induction false} LatestIsOffered(sha: HashFunction, decode: Bytes -> MetaJson, payloads: seq<Bytes>, offered: set<Bytes>)
    requires OnlyOffers(sha, decode, payloads, offered) && LatestSha(decode, payloads).Some?
    ensures exists file :: file in offered && LatestSha(decode, payloads) == Some(sha(file))
  {
    var last := payloads[|payloads| - 1];
    if !(Dispatch(last).MetaMessage? && StoredSha(decode(Dispatch(last).body)).Some?) {
      LatestIsOffered(sha, decode, payloads[..|payloads| - 1], offered);
    }
  }

  /**
   However transfers interleave, a file handed over is one of the files offered, or two different byte
   strings with the same hash exist.
   */
  lemma HandedOverWasOffered(sha: HashFunction, decode: Bytes -> MetaJson, payloads: seq<Bytes>, next: Bytes,
                             file: Bytes, offered: set<Bytes>)
    requires OnlyOffers(sha, decode, payloads, offered)
    requires HandOver(file) in OnMessage(sha, decode, OnMessages(sha, decode, EMPTY, payloads).state, next).events
    ensures file in offered || exists other :: other in offered && other != file && sha(other) == sha(file)
  {
    HandedOverMatchesLatestMeta(sha, decode, payloads, next, file);
    LatestIsOffered(sha, decode, payloads, offered);
  }

  function HandOvers(events: seq<Event>): nat {
    if events == [] then 0 else (if events[0].HandOver? then 1 else 0) + HandOvers(events[1..])
  }

  lemma {:induction false} HandOversAppend(a: seq<Event>, b: seq<Event>)
    ensures HandOvers(a + b) == HandOvers(a) + HandOvers(b)
  {
    if a == [] {
      assert a + b == b;
    } else {
      DropFirstOfAppend(a, b);
      HandOversAppend(a[1..], b);
    }
  }

  predicate Complete(json: MetaJson) {
    StoredSha(json).Some? && json.chunkSize.Some?
  }

  function CompleteMetas(decode: Bytes -> MetaJson, payloads: seq<Bytes>): nat {
    if payloads == [] then 0
    else
      (if Dispatch(payloads[0]).MetaMessage? && Complete(decode(Dispatch(payloads[0]).body)) then 1 else 0)
      + CompleteMetas(decode, payloads[1..])
  }

  function Active(s: State): nat {
    if s.tempDir.Some? then 1 else 0
  }

  lemma OneHandOverPerTransfer(sha: HashFunction, decode: Bytes -> MetaJson, s: State, payload: Bytes)
    ensures var step := OnMessage(sha, decode, s, payload);
            HandOvers(step.events) + Active(step.state) <= CompleteMetas(decode, [payload]) + Active(s)
  {
    assert [payload][1..] == [];
    forall a: Event, b: Event ensures HandOvers([a, b]) == HandOvers([a]) + HandOvers([b]) {
      HandOversAppend([a], [b]);
    }
  }

  /** Hand-overs never outnumber the complete metas that started transfers. */
  lemma {:induction false} HandOversAtMostMetas(sha: HashFunction, decode: Bytes -> MetaJson, s: State, payloads: seq<Bytes>)
    ensures var run := OnMessages(sha, decode, s, payloads);
            HandOvers(run.events) + Active(run.state) <= CompleteMetas(decode, payloads) + Active(s)
    decreases |payloads|
  {
    if payloads != [] {
      var first := OnMessage(sha, decode, s, payloads[0]);
      OneHandOverPerTransfer(sha, decode, s, payloads[0]);
      HandOversAtMostMetas(sha, decode, first.state, payloads[1..]);
      HandOversAppend(first.events, OnMessages(sha, decode, first.state, payloads[1..]).events);
      assert [payloads[0]][1..] == [];
    }
  }
}
