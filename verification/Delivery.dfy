/** A published file arrives: chunking, and the receiver's run over one transfer in any order. */
module Delivery {
  import opened Prelude
  import opened Wire
  import opened Receiver
  import opened ReceiverSafety

  // Chunking

  /** ceil(size / chunkSize). */
  function TotalChunks(size: nat, chunkSize: nat): nat
    requires chunkSize >= 1
  {
    (size + chunkSize - 1) / chunkSize
  }

  /** The slice file[i * chunkSize : (i + 1) * chunkSize], clipped at the end of the file as Python does. */
  function ChunkData(file: Bytes, chunkSize: nat, i: nat): Bytes {
    var from := Min(i * chunkSize, |file|);
    var to := Min(i * chunkSize + chunkSize, |file|);
    file[from..to]
  }

  function FileUpTo(file: Bytes, chunkSize: nat, n: nat): Bytes {
    file[..Min(n * chunkSize, |file|)]
  }

  lemma OneMoreChunk(file: Bytes, chunkSize: nat, n: nat)
    ensures FileUpTo(file, chunkSize, n + 1) == FileUpTo(file, chunkSize, n) + ChunkData(file, chunkSize, n)
  {
    assert (n + 1) * chunkSize == n * chunkSize + chunkSize;
    var from, to := Min(n * chunkSize, |file|), Min(n * chunkSize + chunkSize, |file|);
    assert file[..to] == file[..from] + file[from..to];
  }

  lemma ChunksCoverFile(size: nat, chunkSize: nat)
    requires chunkSize >= 1
    ensures TotalChunks(size, chunkSize) * chunkSize >= size
    ensures size > 0 <==> TotalChunks(size, chunkSize) > 0
  {
    var n := size + chunkSize - 1;
    assert n == n / chunkSize * chunkSize + n % chunkSize;
    if size > 0 {
      assert n / chunkSize >= 1;
    } else {
      assert n / chunkSize == 0;
    }
  }

  ghost predicate HoldChunks(files: map<nat, Bytes>, file: Bytes, chunkSize: nat, n: nat) {
    forall i: nat :: i < n ==> i in files && files[i] == ChunkData(file, chunkSize, i)
  }

  lemma NoChunks(file: Bytes, chunkSize: nat)
    ensures FileUpTo(file, chunkSize, 0) == []
  {
  }

  /** Chunk files that hold the chunks of a file join to the file up to there. */
  lemma {:induction false} JoinedChunks(files: map<nat, Bytes>, file: Bytes, chunkSize: nat, n: nat)
    requires HoldChunks(files, file, chunkSize, n)
    ensures JoinFiles(files, n) == Some(FileUpTo(file, chunkSize, n))
  {
    if n == 0 {
      NoChunks(file, chunkSize);
    } else {
      var last := n - 1;
      assert HoldChunks(files, file, chunkSize, last);
      JoinedChunks(files, file, chunkSize, last);
      OneMoreChunk(file, chunkSize, last);
    }
  }

  lemma WholeFile(file: Bytes, chunkSize: nat)
    requires chunkSize >= 1
    ensures FileUpTo(file, chunkSize, TotalChunks(|file|, chunkSize)) == file
  {
    ChunksCoverFile(|file|, chunkSize);
  }

  lemma NextMultiple(n: nat, d: nat)
    ensures (n + 1) * d == n * d + d
  {
  }

  lemma {:induction false} LargerMultiple(n: nat, m: nat, d: nat)
    requires n < m
    ensures n * d + d <= m * d
  {
    NextMultiple(m - 1, d);
    if n < m - 1 {
      LargerMultiple(n, m - 1, d);
    }
  }

  lemma TotalCovers(size: nat, chunkSize: nat)
    requires chunkSize >= 1
    ensures size <= TotalChunks(size, chunkSize) * chunkSize < size + chunkSize
  {
    var q := size + chunkSize - 1;
    assert q == q / chunkSize * chunkSize + q % chunkSize;
  }

  /** The number of chunks is the one that covers the file with less than a chunk to spare. */
  lemma TotalIsLeast(size: nat, chunkSize: nat, n: nat)
    requires chunkSize >= 1
    ensures n == TotalChunks(size, chunkSize) <==> size <= n * chunkSize < size + chunkSize
  {
    var m := TotalChunks(size, chunkSize);
    TotalCovers(size, chunkSize);
    if n < m {
      LargerMultiple(n, m, chunkSize);
    } else if m < n {
      LargerMultiple(m, n, chunkSize);
    }
  }

  /** Chunk i is what the file has from byte i * chunkSize on: chunkSize bytes, or what is left of them in the last. */
  lemma ChunkHolds(file: Bytes, chunkSize: nat, i: nat, from: nat)
    requires chunkSize >= 1 && i < TotalChunks(|file|, chunkSize) && from == i * chunkSize
    ensures var data := ChunkData(file, chunkSize, i);
            && 0 < |data| <= chunkSize && from + |data| <= |file|
            && (|data| < chunkSize ==> from + |data| == |file|)
            && data == file[from..from + |data|]
  {
    TotalCovers(|file|, chunkSize);
    LargerMultiple(i, TotalChunks(|file|, chunkSize), chunkSize);
  }

  // One transfer

  datatype Transfer = Transfer(filename: string, file: Bytes, chunkSize: nat)

  ghost predicate Sendable(t: Transfer) {
    t.chunkSize >= 1 && TotalChunks(|t.file|, t.chunkSize) <= TWO_TO_32
  }

  function Total(t: Transfer): nat
    requires t.chunkSize >= 1
  {
    TotalChunks(|t.file|, t.chunkSize)
  }

  function MetaOf(sha: HashFunction, t: Transfer): Meta
    requires t.chunkSize >= 1
  {
    Meta(t.filename, Total(t), |t.file|, sha(t.file), t.chunkSize)
  }

  function MetaFrame(sha: HashFunction, codec: Codec, t: Transfer): Bytes
    requires t.chunkSize >= 1
  {
    [MODEL_TYPE_META] + codec.encode(MetaOf(sha, t))
  }

  function PublishedChunk(sha: HashFunction, t: Transfer, i: nat): Bytes
    requires i < TWO_TO_32
  {
    var data := ChunkData(t.file, t.chunkSize, i);
    ChunkFrame(i, sha(data), data)
  }

  lemma PublishedChunkIsIntact(sha: HashFunction, t: Transfer, i: nat)
    requires DigestLength(sha) && i < TWO_TO_32
    ensures var m := Dispatch(PublishedChunk(sha, t, i));
            && m.ChunkMessage?
            && IntactChunk(sha, m.body) == Some(Chunk(i, sha(ChunkData(t.file, t.chunkSize, i)), ChunkData(t.file, t.chunkSize, i)))
  {
    ChunkRoundTrip(i, sha(ChunkData(t.file, t.chunkSize, i)), ChunkData(t.file, t.chunkSize, i));
  }

  /** A message the receiver drops: unknown type, too short, or data that fails its carried hash. */
  ghost predicate Dropped(sha: HashFunction, payload: Bytes) {
    var m := Dispatch(payload);
    m.Ignored? || (m.ChunkMessage? && IntactChunk(sha, m.body).None?)
  }

  ghost predicate Genuine(sha: HashFunction, t: Transfer, payload: Bytes)
    requires Sendable(t)
  {
    exists i: nat :: i < Total(t) && payload == PublishedChunk(sha, t, i)
  }

  /** What the channel may deliver after the meta: published chunks, any number of times, and dropped copies. */
  ghost predicate FromTransfer(sha: HashFunction, t: Transfer, payloads: seq<Bytes>)
    requires Sendable(t)
  {
    forall p :: p in payloads ==> Dropped(sha, p) || Genuine(sha, t, p)
  }

  ghost predicate Covers(sha: HashFunction, t: Transfer, payloads: seq<Bytes>, indices: set<nat>)
    requires Sendable(t)
  {
    && (forall i :: i in indices ==> i < Total(t))
    && forall i: nat {:trigger PublishedChunk(sha, t, i)} ::
         i in indices && i < Total(t) ==> PublishedChunk(sha, t, i) in payloads
  }

  /** Every chunk is delivered at least once. */
  ghost predicate CoversAll(sha: HashFunction, t: Transfer, payloads: seq<Bytes>)
    requires Sendable(t)
  {
    forall i: nat {:trigger PublishedChunk(sha, t, i)} :: i < Total(t) ==> PublishedChunk(sha, t, i) in payloads
  }

  function UpTo(n: nat): (s: set<nat>)
    ensures |s| == n
    ensures forall i: nat :: i in s <==> i < n
  {
    if n == 0 then {} else UpTo(n - 1) + {n - 1}
  }

  /** The meta is stored and what is on disk is right. */
  ghost predicate OnDisk(sha: HashFunction, t: Transfer, s: State)
    requires Sendable(t)
  {
    && s.filename == Some(t.filename) && s.totalChunks == Total(t) && s.expected == Some(sha(t.file))
    && s.tempDir.Some? && s.received == s.tempDir.value.Keys
    && s.received <= UpTo(Total(t))
    && forall i :: i in s.received ==> s.tempDir.value[i] == ChunkData(t.file, t.chunkSize, i)
  }

  /** The transfer is under way: something is still missing. */
  ghost predicate UnderWay(sha: HashFunction, t: Transfer, s: State)
    requires Sendable(t)
  {
    OnDisk(sha, t, s) && s.received != UpTo(Total(t))
  }

  lemma SubsetSizes(a: set<nat>, b: set<nat>)
    requires a <= b
    ensures |a| <= |b| && (|a| == |b| ==> a == b)
  {
    if a != b {
      assert |b| == |a| + |b - a| by { assert b == a + (b - a); }
      assert b - a != {};
    }
  }

  /** With no active transfer nothing but a meta has any effect. */
  lemma {:induction false} IdleReceiverIsInert(sha: HashFunction, decode: Bytes -> MetaJson, s: State, payloads: seq<Bytes>)
    requires s.tempDir.None? && NoMeta(payloads)
    ensures OnMessages(sha, decode, s, payloads) == Step(s, [])
    decreases |payloads|
  {
    if payloads != [] {
      IdleReceiverIsInert(sha, decode, s, payloads[1..]);
    }
  }

  lemma TransferHasNoMeta(sha: HashFunction, t: Transfer, payloads: seq<Bytes>)
    requires DigestLength(sha) && Sendable(t) && FromTransfer(sha, t, payloads)
    ensures NoMeta(payloads)
  {
    forall p | p in payloads ensures !Dispatch(p).MetaMessage? {
      if Genuine(sha, t, p) {
        var i: nat :| i < Total(t) && p == PublishedChunk(sha, t, i);
        PublishedChunkIsIntact(sha, t, i);
      }
    }
  }

  /** With every chunk on disk, assembly succeeds and yields the file. */
  lemma AssemblyYieldsFile(sha: HashFunction, t: Transfer, s: State)
    requires Sendable(t) && s.tempDir.Some? && s.filename == Some(t.filename)
    requires s.totalChunks == Total(t) && s.expected == Some(sha(t.file))
    requires HoldChunks(s.tempDir.value, t.file, t.chunkSize, Total(t))
    ensures Assemble(sha, s) == Step(EMPTY, [SuccessAck(Some(t.filename)), HandOver(t.file)])
  {
    JoinedChunks(s.tempDir.value, t.file, t.chunkSize, Total(t));
    WholeFile(t.file, t.chunkSize);
  }

  lemma AcceptStaysRight(sha: HashFunction, t: Transfer, s: State, i: nat)
    requires Sendable(t) && OnDisk(sha, t, s) && i < Total(t)
    ensures OnDisk(sha, t, Accept(s, Chunk(i, sha(ChunkData(t.file, t.chunkSize, i)), ChunkData(t.file, t.chunkSize, i))))
  {
    AcceptIsConsistent(s, Chunk(i, sha(ChunkData(t.file, t.chunkSize, i)), ChunkData(t.file, t.chunkSize, i)));
  }

  /** An active receiver accepts a genuine chunk, and assembles once it has as many as were announced. */
  lemma GenuineChunkAccepted(sha: HashFunction, decode: Bytes -> MetaJson, t: Transfer, s: State, i: nat, c: Chunk)
    requires DigestLength(sha) && i < TWO_TO_32 && s.tempDir.Some?
    requires c == Chunk(i, sha(ChunkData(t.file, t.chunkSize, i)), ChunkData(t.file, t.chunkSize, i))
    ensures OnMessage(sha, decode, s, PublishedChunk(sha, t, i))
            == if |s.received + {i}| == s.totalChunks then Assemble(sha, Accept(s, c)) else Step(Accept(s, c), [])
  {
    PublishedChunkIsIntact(sha, t, i);
  }

  /** One genuine chunk either completes the transfer or leaves it under way with that index accepted. */
  lemma GenuineChunkStep(sha: HashFunction, decode: Bytes -> MetaJson, t: Transfer, s: State, i: nat)
    requires DigestLength(sha) && Sendable(t) && UnderWay(sha, t, s) && i < Total(t)
    ensures var step := OnMessage(sha, decode, s, PublishedChunk(sha, t, i));
            if s.received + {i} == UpTo(Total(t))
            then step == Step(EMPTY, [SuccessAck(Some(t.filename)), HandOver(t.file)])
            else step.events == [] && UnderWay(sha, t, step.state) && step.state.received == s.received + {i}
  {
    var c := Chunk(i, sha(ChunkData(t.file, t.chunkSize, i)), ChunkData(t.file, t.chunkSize, i));
    GenuineChunkAccepted(sha, decode, t, s, i, c);
    AcceptStaysRight(sha, t, s, i);
    SubsetSizes(s.received + {i}, UpTo(Total(t)));
    if s.received + {i} == UpTo(Total(t)) {
      assert HoldChunks(Accept(s, c).tempDir.value, t.file, t.chunkSize, Total(t));
      AssemblyYieldsFile(sha, t, Accept(s, c));
    }
  }

  lemma DroppedStep(sha: HashFunction, decode: Bytes -> MetaJson, s: State, payload: Bytes)
    requires Dropped(sha, payload)
    ensures OnMessage(sha, decode, s, payload) == Step(s, [])
  {
  }

  lemma ChunksDiffer(sha: HashFunction, t: Transfer, i: nat, k: nat)
    requires DigestLength(sha) && i < TWO_TO_32 && k < TWO_TO_32 && i != k
    ensures PublishedChunk(sha, t, i) != PublishedChunk(sha, t, k)
  {
    PublishedChunkIsIntact(sha, t, i);
    PublishedChunkIsIntact(sha, t, k);
  }

  lemma ChunkNotDropped(sha: HashFunction, t: Transfer, i: nat)
    requires DigestLength(sha) && i < TWO_TO_32
    ensures !Dropped(sha, PublishedChunk(sha, t, i))
  {
    PublishedChunkIsIntact(sha, t, i);
  }

  /** Without a message that is none of these chunks, the others still cover them. */
  lemma CoversRest(sha: HashFunction, t: Transfer, payloads: seq<Bytes>, indices: set<nat>, fewer: set<nat>)
    requires Sendable(t) && payloads != [] && Covers(sha, t, payloads, indices) && fewer <= indices
    requires forall k :: k in fewer && k < Total(t) ==> PublishedChunk(sha, t, k) != payloads[0]
    ensures Covers(sha, t, payloads[1..], fewer)
  {
  }

  lemma SomethingComes(sha: HashFunction, t: Transfer, payloads: seq<Bytes>, indices: set<nat>)
    requires Sendable(t) && Covers(sha, t, payloads, indices) && indices != {}
    ensures payloads != []
  {
    var j :| j in indices;
    assert PublishedChunk(sha, t, j) in payloads;
  }

  lemma CoversWithoutDropped(sha: HashFunction, t: Transfer, payloads: seq<Bytes>, indices: set<nat>)
    requires DigestLength(sha) && Sendable(t) && payloads != [] && Covers(sha, t, payloads, indices)
    requires Dropped(sha, payloads[0])
    ensures Covers(sha, t, payloads[1..], indices)
  {
    forall k | k in indices ensures PublishedChunk(sha, t, k) != payloads[0] {
      ChunkNotDropped(sha, t, k);
    }
    CoversRest(sha, t, payloads, indices, indices);
  }

  lemma CoversWithoutChunk(sha: HashFunction, t: Transfer, payloads: seq<Bytes>, indices: set<nat>, i: nat)
    requires DigestLength(sha) && Sendable(t) && payloads != [] && Covers(sha, t, payloads, indices)
    requires i < Total(t) && payloads[0] == PublishedChunk(sha, t, i)
    ensures Covers(sha, t, payloads[1..], indices - {i})
  {
    forall k | k in indices - {i} ensures PublishedChunk(sha, t, k) != payloads[0] {
      ChunksDiffer(sha, t, i, k);
    }
    CoversRest(sha, t, payloads, indices, indices - {i});
  }

  /** A first message that sends nothing only moves the receiver on. */
  lemma SilentFirst(sha: HashFunction, decode: Bytes -> MetaJson, s: State, payloads: seq<Bytes>, next: State)
    requires payloads != [] && OnMessage(sha, decode, s, payloads[0]) == Step(next, [])
    ensures OnMessages(sha, decode, s, payloads) == OnMessages(sha, decode, next, payloads[1..])
  {
  }

  lemma RestFromTransfer(sha: HashFunction, t: Transfer, payloads: seq<Bytes>)
    requires Sendable(t) && payloads != [] && FromTransfer(sha, t, payloads)
    ensures FromTransfer(sha, t, payloads[1..])
  {
  }

  /** The chunk that completes the transfer ends the run: what follows is ignored. */
  lemma LastChunkCompletes(sha: HashFunction, decode: Bytes -> MetaJson, t: Transfer, s: State, payloads: seq<Bytes>, i: nat)
    requires DigestLength(sha) && Sendable(t) && UnderWay(sha, t, s) && payloads != [] && FromTransfer(sha, t, payloads)
    requires i < Total(t) && payloads[0] == PublishedChunk(sha, t, i) && s.received + {i} == UpTo(Total(t))
    ensures OnMessages(sha, decode, s, payloads) == Step(EMPTY, [SuccessAck(Some(t.filename)), HandOver(t.file)])
  {
    GenuineChunkStep(sha, decode, t, s, i);
    TransferHasNoMeta(sha, t, payloads);
    IdleReceiverIsInert(sha, decode, EMPTY, payloads[1..]);
  }

  /** A genuine chunk that does not complete the transfer leaves less to cover. */
  lemma ChunkMovesOn(sha: HashFunction, decode: Bytes -> MetaJson, t: Transfer, s: State, payloads: seq<Bytes>, i: nat)
    returns (next: State)
    requires DigestLength(sha) && Sendable(t) && UnderWay(sha, t, s) && payloads != []
    requires Covers(sha, t, payloads, UpTo(Total(t)) - s.received)
    requires i < Total(t) && payloads[0] == PublishedChunk(sha, t, i) && s.received + {i} != UpTo(Total(t))
    ensures UnderWay(sha, t, next) && Covers(sha, t, payloads[1..], UpTo(Total(t)) - next.received)
    ensures OnMessages(sha, decode, s, payloads) == OnMessages(sha, decode, next, payloads[1..])
  {
    GenuineChunkStep(sha, decode, t, s, i);
    next := OnMessage(sha, decode, s, payloads[0]).state;
    CoversWithoutChunk(sha, t, payloads, UpTo(Total(t)) - s.received, i);
    assert UpTo(Total(t)) - s.received - {i} == UpTo(Total(t)) - next.received;
    SilentFirst(sha, decode, s, payloads, next);
  }

  /** From any point under way, delivering at least what is missing completes the transfer, once. */
  lemma {:induction false} TransferCompletes(sha: HashFunction, decode: Bytes -> MetaJson, t: Transfer, s: State, payloads: seq<Bytes>)
    requires DigestLength(sha) && Sendable(t) && UnderWay(sha, t, s)
    requires FromTransfer(sha, t, payloads) && Covers(sha, t, payloads, UpTo(Total(t)) - s.received)
    ensures OnMessages(sha, decode, s, payloads)
            == Step(EMPTY, [SuccessAck(Some(t.filename)), HandOver(t.file)])
    decreases |payloads|
  {
    assert UpTo(Total(t)) - s.received != {};
    SomethingComes(sha, t, payloads, UpTo(Total(t)) - s.received);
    RestFromTransfer(sha, t, payloads);
    if Dropped(sha, payloads[0]) {
      DroppedStep(sha, decode, s, payloads[0]);
      CoversWithoutDropped(sha, t, payloads, UpTo(Total(t)) - s.received);
      SilentFirst(sha, decode, s, payloads, s);
      TransferCompletes(sha, decode, t, s, payloads[1..]);
    } else {
      assert Genuine(sha, t, payloads[0]);
      var i: nat :| i < Total(t) && payloads[0] == PublishedChunk(sha, t, i);
      if s.received + {i} == UpTo(Total(t)) {
        LastChunkCompletes(sha, decode, t, s, payloads, i);
      } else {
        var next := ChunkMovesOn(sha, decode, t, s, payloads, i);
        TransferCompletes(sha, decode, t, next, payloads[1..]);
      }
    }
  }

  lemma MetaStartsTransfer(sha: HashFunction, codec: Codec, t: Transfer, s: State)
    requires Invertible(codec) && t.chunkSize >= 1
    ensures var step := OnMessage(sha, codec.decode, s, MetaFrame(sha, codec, t));
            && step.events == []
            && step.state == State(Some(t.filename), Total(t), |t.file|, Some(sha(t.file)), t.chunkSize, {}, Some(map[]))
  {
    var m := MetaOf(sha, t);
    assert Dispatch(MetaFrame(sha, codec, t)) == MetaMessage(codec.encode(m)) by {
      assert MetaFrame(sha, codec, t)[1..] == codec.encode(m);
    }
    assert codec.decode(codec.encode(m)) == AllFields(m);
  }

  ghost predicate NeverComes(sha: HashFunction, t: Transfer, payloads: seq<Bytes>, j: nat)
    requires j < TWO_TO_32
  {
    forall p :: p in payloads ==> p != PublishedChunk(sha, t, j)
  }

  lemma RestOfTransfer(sha: HashFunction, t: Transfer, payloads: seq<Bytes>, j: nat)
    requires Sendable(t) && payloads != [] && j < TWO_TO_32
    requires FromTransfer(sha, t, payloads) && NeverComes(sha, t, payloads, j)
    ensures Dropped(sha, payloads[0]) || Genuine(sha, t, payloads[0])
    ensures payloads[0] != PublishedChunk(sha, t, j)
    ensures FromTransfer(sha, t, payloads[1..]) && NeverComes(sha, t, payloads[1..], j)
  {
    assert payloads[0] in payloads;
    assert forall p :: p in payloads[1..] ==> p in payloads;
  }

  lemma LackingIsUnderWay(sha: HashFunction, t: Transfer, s: State, j: nat)
    requires Sendable(t) && OnDisk(sha, t, s) && j < Total(t) && j !in s.received
    ensures UnderWay(sha, t, s)
    ensures forall i: nat :: i != j ==> s.received + {i} != UpTo(Total(t))
  {
    assert j in UpTo(Total(t));
    forall i: nat | i != j ensures s.received + {i} != UpTo(Total(t)) {
      assert j !in s.received + {i};
    }
  }

  /** While some chunk never comes, nothing is sent or handed over. */
  lemma {:induction false} NothingWhileLacking(sha: HashFunction, decode: Bytes -> MetaJson, t: Transfer, s: State,
                                               payloads: seq<Bytes>, j: nat)
    requires DigestLength(sha) && Sendable(t) && OnDisk(sha, t, s) && FromTransfer(sha, t, payloads)
    requires j < Total(t) && j !in s.received && NeverComes(sha, t, payloads, j)
    ensures OnMessages(sha, decode, s, payloads).events == []
    decreases |payloads|
  {
    if payloads != [] {
      var first := payloads[0];
      RestOfTransfer(sha, t, payloads, j);
      if Dropped(sha, first) {
        DroppedStep(sha, decode, s, first);
        NothingWhileLacking(sha, decode, t, s, payloads[1..], j);
      } else {
        var i: nat :| i < Total(t) && first == PublishedChunk(sha, t, i);
        LackingIsUnderWay(sha, t, s, j);
        GenuineChunkStep(sha, decode, t, s, i);
        NothingWhileLacking(sha, decode, t, OnMessage(sha, decode, s, first).state, payloads[1..], j);
      }
    }
  }

  lemma AfterMeta(sha: HashFunction, codec: Codec, t: Transfer, before: State, payloads: seq<Bytes>) returns (started: State)
    requires Invertible(codec) && Sendable(t) && t.file != []
    ensures UnderWay(sha, t, started) && started.received == {}
    ensures OnMessages(sha, codec.decode, before, [MetaFrame(sha, codec, t)] + payloads)
         == OnMessages(sha, codec.decode, started, payloads)
  {
    MetaStartsTransfer(sha, codec, t, before);
    started := OnMessage(sha, codec.decode, before, MetaFrame(sha, codec, t)).state;
    ChunksCoverFile(|t.file|, t.chunkSize);
    assert Total(t) - 1 in UpTo(Total(t));
    assert ([MetaFrame(sha, codec, t)] + payloads)[1..] == payloads;
  }

  /**
   Whatever state the receiver was in, after the meta of a non-empty file any delivery of its chunks, in
   any order, with duplicates and with corrupted copies, makes the receiver send one ACK, a success, and
   hand over exactly the original file, once.
   */
  lemma TransferDelivers(sha: HashFunction, codec: Codec, t: Transfer, before: State, payloads: seq<Bytes>)
    requires DigestLength(sha) && Invertible(codec) && Sendable(t) && t.file != []
    requires FromTransfer(sha, t, payloads) && CoversAll(sha, t, payloads)
    ensures OnMessages(sha, codec.decode, before, [MetaFrame(sha, codec, t)] + payloads)
            == Step(EMPTY, [SuccessAck(Some(t.filename)), HandOver(t.file)])
  {
    var started := AfterMeta(sha, codec, t, before, payloads);
    assert UpTo(Total(t)) - {} == UpTo(Total(t));
    TransferCompletes(sha, codec.decode, t, started, payloads);
  }

  /** Over a channel that may also lose chunks, the file is handed over exactly when none is lost for good. */
  lemma DeliveredIffCovered(sha: HashFunction, codec: Codec, t: Transfer, before: State, payloads: seq<Bytes>)
    requires DigestLength(sha) && Invertible(codec) && Sendable(t) && t.file != []
    requires FromTransfer(sha, t, payloads)
    ensures OnMessages(sha, codec.decode, before, [MetaFrame(sha, codec, t)] + payloads).events
            == if CoversAll(sha, t, payloads) then [SuccessAck(Some(t.filename)), HandOver(t.file)] else []
  {
    if CoversAll(sha, t, payloads) {
      TransferDelivers(sha, codec, t, before, payloads);
    } else {
      var j: nat :| j < Total(t) && PublishedChunk(sha, t, j) !in payloads;
      var started := AfterMeta(sha, codec, t, before, payloads);
      NothingWhileLacking(sha, codec.decode, t, started, payloads, j);
    }
  }

  /** An empty file announces no chunks, and then no chunk message ever causes an ACK. */
  lemma {:induction false} NothingExpectedNothingSent(sha: HashFunction, decode: Bytes -> MetaJson, s: State, payloads: seq<Bytes>)
    requires s.totalChunks <= 0 && NoMeta(payloads)
    ensures OnMessages(sha, decode, s, payloads).events == []
    decreases |payloads|
  {
    if payloads != [] {
      var step := OnMessage(sha, decode, s, payloads[0]);
      if Dispatch(payloads[0]).ChunkMessage? && step.state != s {
        var c := IntactChunk(sha, Dispatch(payloads[0]).body).value;
        assert c.index in Accept(s, c).received;
        assert |Accept(s, c).received| > 0;
      }
      NothingExpectedNothingSent(sha, decode, step.state, payloads[1..]);
    }
  }

  // What the distributor publishes

  /** The chunk messages in the order they are published. */
  function PublishedChunks(sha: HashFunction, t: Transfer, n: nat): (r: seq<Bytes>)
    requires n <= TWO_TO_32
    ensures |r| == n
    ensures forall i :: 0 <= i < n ==> r[i] == PublishedChunk(sha, t, i)
  {
    if n == 0 then [] else PublishedChunks(sha, t, n - 1) + [PublishedChunk(sha, t, n - 1)]
  }

  function Published(sha: HashFunction, codec: Codec, t: Transfer): seq<Bytes>
    requires Sendable(t)
  {
    [MetaFrame(sha, codec, t)] + PublishedChunks(sha, t, Total(t))
  }

  lemma PublishedCovers(sha: HashFunction, t: Transfer)
    requires Sendable(t)
    ensures FromTransfer(sha, t, PublishedChunks(sha, t, Total(t)))
    ensures CoversAll(sha, t, PublishedChunks(sha, t, Total(t)))
  {
    var chunks := PublishedChunks(sha, t, Total(t));
    forall p | p in chunks ensures Genuine(sha, t, p) {
      var i :| 0 <= i < |chunks| && chunks[i] == p;
    }
    forall i: nat | i < Total(t) ensures PublishedChunk(sha, t, i) in chunks {
      assert chunks[i] == PublishedChunk(sha, t, i);
    }
  }

  /** Publishing over a lossless channel is acknowledged, with success, exactly when the file is not empty. */
  lemma AcknowledgedIffNonEmpty(sha: HashFunction, codec: Codec, t: Transfer, before: State)
    requires DigestLength(sha) && Invertible(codec) && Sendable(t)
    ensures var events := OnMessages(sha, codec.decode, before, Published(sha, codec, t)).events;
            && (t.file != [] <==> events == [SuccessAck(Some(t.filename)), HandOver(t.file)])
            && (t.file == [] <==> events == [])
  {
    var chunks := PublishedChunks(sha, t, Total(t));
    PublishedCovers(sha, t);
    if t.file != [] {
      TransferDelivers(sha, codec, t, before, chunks);
    } else {
      MetaStartsTransfer(sha, codec, t, before);
      ChunksCoverFile(0, t.chunkSize);
      TransferHasNoMeta(sha, t, chunks);
      var started := OnMessage(sha, codec.decode, before, MetaFrame(sha, codec, t)).state;
      NothingExpectedNothingSent(sha, codec.decode, started, chunks);
      assert ([MetaFrame(sha, codec, t)] + chunks)[1..] == chunks;
    }
  }
}
