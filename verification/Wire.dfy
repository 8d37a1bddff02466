/** The binary frames: big-endian lengths and indices, model messages with a type byte, image messages with a header. */
module Wire {
  import opened Prelude

  newtype byte = x: int | 0 <= x < 256

  type Bytes = seq<byte>

  const TWO_TO_32: int := 0x1_0000_0000

  const MODEL_TYPE_META: byte := 1
  const MODEL_TYPE_CHUNK: byte := 2
  const MODEL_TYPE_ACK: byte := 3

  /** `struct.pack("!I", n)`; larger numbers raise. */
  function PackU32(n: nat): (b: Bytes)
    requires n < TWO_TO_32
    ensures |b| == 4
  {
    [(n / 0x100_0000) as byte, (n / 0x1_0000 % 0x100) as byte, (n / 0x100 % 0x100) as byte, (n % 0x100) as byte]
  }

  /** `struct.unpack("!I", b)`. */
  function UnpackU32(b: Bytes): (n: nat)
    requires |b| == 4
    ensures n < TWO_TO_32
  {
    b[0] as int * 0x100_0000 + b[1] as int * 0x1_0000 + b[2] as int * 0x100 + b[3] as int
  }

  lemma UnpackOfPack(n: nat)
    requires n < TWO_TO_32
    ensures UnpackU32(PackU32(n)) == n
  {
    var m, k := n / 0x100, n / 0x1_0000;
    Digits(n, m);
    Digits(m, k);
    Digits(k, n / 0x100_0000);
    var b := PackU32(n);
    assert b[0] as int == n / 0x100_0000 && b[1] as int == k % 0x100 && b[2] as int == m % 0x100 && b[3] as int == n % 0x100;
  }

  lemma Digits(n: nat, quotient: nat)
    requires quotient == n / 0x100
    ensures n == quotient * 0x100 + n % 0x100
  {
  }

  lemma QuotientAndRest(q: int, r: int, m: int)
    requires m == 0x100 || m == 0x1_0000 || m == 0x100_0000
    requires 0 <= r < m
    ensures (q * m + r) / m == q && (q * m + r) % m == r
  {
    if m == 0x100 {
    } else if m == 0x1_0000 {
    } else {
    }
  }

  lemma PackOfUnpack(b: Bytes)
    requires |b| == 4
    ensures PackU32(UnpackU32(b)) == b
  {
    var n := UnpackU32(b);
    var b0, b1, b2, b3 := b[0] as int, b[1] as int, b[2] as int, b[3] as int;
    QuotientAndRest(b0, b1 * 0x1_0000 + b2 * 0x100 + b3, 0x100_0000);
    QuotientAndRest(b0 * 0x100 + b1, b2 * 0x100 + b3, 0x1_0000);
    QuotientAndRest(b0, b1, 0x100);
    QuotientAndRest(b0 * 0x1_0000 + b1 * 0x100 + b2, b3, 0x100);
    QuotientAndRest(b0 * 0x100 + b1, b2, 0x100);
    var p := PackU32(n);
    assert p[0] as int == b0 && p[1] as int == b1 && p[2] as int == b2 && p[3] as int == b3;
  }

  /** First differing byte decides, as in comparing byte strings. */
  predicate BytesLess(a: Bytes, b: Bytes) {
    exists k :: 0 <= k < |a| && k < |b| && a[..k] == b[..k] && a[k] < b[k]
  }

  lemma LessIsLess(a: Bytes, b: Bytes)
    requires |a| == 4 && |b| == 4
    ensures BytesLess(a, b) ==> UnpackU32(a) < UnpackU32(b)
  {
    forall k | 0 <= k < 4 && a[..k] == b[..k] && a[k] < b[k] ensures UnpackU32(a) < UnpackU32(b) {
      assert forall i :: 0 <= i < k ==> a[i] == a[..k][i] && b[i] == b[..k][i];
    }
  }

  lemma SomeByteDiffers(a: Bytes, b: Bytes)
    requires |a| == 4 && |b| == 4 && a != b
    ensures BytesLess(a, b) || BytesLess(b, a)
  {
    var k := if a[0] != b[0] then 0 else if a[1] != b[1] then 1 else if a[2] != b[2] then 2 else 3;
    assert a[..k] == b[..k] && a[k] != b[k];
  }

  /** The most significant byte comes first: packed numbers compare as byte strings the way the numbers do. */
  lemma BigEndian(n: nat, m: nat)
    requires n < TWO_TO_32 && m < TWO_TO_32
    ensures n < m <==> BytesLess(PackU32(n), PackU32(m))
  {
    UnpackOfPack(n);
    UnpackOfPack(m);
    LessIsLess(PackU32(n), PackU32(m));
    LessIsLess(PackU32(m), PackU32(n));
    if n < m {
      SomeByteDiffers(PackU32(n), PackU32(m));
    }
  }

  // Model messages

  /** The body of a chunk message, after the type byte: index, hash of the data, data. */
  function ChunkBody(index: nat, digest: Bytes, data: Bytes): Bytes
    requires index < TWO_TO_32
  {
    PackU32(index) + digest + data
  }

  datatype Chunk = Chunk(index: nat, digest: Bytes, data: Bytes)

  /** None when the body is too short to hold an index and a hash. */
  function ParseChunk(body: Bytes): (r: Option<Chunk>)
    ensures r.Some? <==> |body| >= 36
    ensures r.Some? ==> r.value.index < TWO_TO_32 && |r.value.digest| == 32
  {
    if |body| < 36 then None else Some(Chunk(UnpackU32(body[..4]), body[4..36], body[36..]))
  }

  datatype ModelMessage = MetaMessage(body: Bytes) | ChunkMessage(body: Bytes) | Ignored

  /** The edge device's dispatch on the type byte. */
  function Dispatch(payload: Bytes): ModelMessage {
    if |payload| < 1 then Ignored
    else if payload[0] == MODEL_TYPE_META then MetaMessage(payload[1..])
    else if payload[0] == MODEL_TYPE_CHUNK then ChunkMessage(payload[1..])
    else Ignored
  }

  function ChunkFrame(index: nat, digest: Bytes, data: Bytes): Bytes
    requires index < TWO_TO_32
  {
    [MODEL_TYPE_CHUNK] + ChunkBody(index, digest, data)
  }

  /** A chunk message is the byte 2, four bytes of index, 32 bytes of hash, and the data. */
  lemma ChunkLayout(index: nat, digest: Bytes, data: Bytes)
    requires index < TWO_TO_32 && |digest| == 32
    ensures var frame := ChunkFrame(index, digest, data);
            && |frame| == 37 + |data| && frame[0] == 2 && frame[1..5] == PackU32(index)
            && frame[5..37] == digest && frame[37..] == data
  {
  }

  /** What the device does with a message depends on its first byte: 1 is a meta, 2 a chunk, all else is ignored. */
  lemma DispatchByType(payload: Bytes)
    ensures Dispatch(payload) == if payload != [] && payload[0] == 1 then MetaMessage(payload[1..])
                                 else if payload != [] && payload[0] == 2 then ChunkMessage(payload[1..]) else Ignored
  {
  }

  lemma ChunkBodySlices(index: nat, digest: Bytes, data: Bytes)
    requires index < TWO_TO_32 && |digest| == 32
    ensures var body := ChunkBody(index, digest, data);
            |body| >= 36 && body[..4] == PackU32(index) && body[4..36] == digest && body[36..] == data
  {
  }

  /** Whatever is packed into a chunk message comes out of it. */
  lemma ChunkRoundTrip(index: nat, digest: Bytes, data: Bytes)
    requires index < TWO_TO_32 && |digest| == 32
    ensures Dispatch(ChunkFrame(index, digest, data)) == ChunkMessage(ChunkBody(index, digest, data))
    ensures ParseChunk(ChunkBody(index, digest, data)) == Some(Chunk(index, digest, data))
  {
    ChunkBodySlices(index, digest, data);
    UnpackOfPack(index);
  }

  /** A body that parses is exactly what would have been packed. */
  lemma ChunkParsedIsPacked(body: Bytes)
    requires ParseChunk(body).Some?
    ensures var c := ParseChunk(body).value; ChunkBody(c.index, c.digest, c.data) == body
  {
    PackOfUnpack(body[..4]);
  }

  // Image messages

  function ImageFrame(header: Bytes, image: Bytes): Bytes
    requires |header| < TWO_TO_32
  {
    PackU32(|header|) + header + image
  }

  datatype Image = Image(header: Bytes, image: Bytes)

  /** None when the payload has no length or is shorter than its length says. */
  function ParseImage(payload: Bytes): Option<Image> {
    if |payload| < 4 then None
    else
      var headerLen := UnpackU32(payload[..4]);
      if |payload| < 4 + headerLen then None
      else Some(Image(payload[4..4 + headerLen], payload[4 + headerLen..]))
  }

  /** An image message is four bytes with the length of the header, the header, and the image. */
  lemma ImageLayout(header: Bytes, image: Bytes)
    requires |header| < TWO_TO_32
    ensures var frame := ImageFrame(header, image);
            && |frame| == 4 + |header| + |image| && frame[..4] == PackU32(|header|)
            && frame[4..4 + |header|] == header && frame[4 + |header|..] == image
  {
    ImageFrameSlices(header, image);
  }

  lemma ImageFrameSlices(header: Bytes, image: Bytes)
    requires |header| < TWO_TO_32
    ensures var p := ImageFrame(header, image);
            p[..4] == PackU32(|header|) && p[4..4 + |header|] == header && p[4 + |header|..] == image
  {
  }

  /** Header and image survive the frame exactly, and only frames parse. */
  lemma ImageRoundTrip(payload: Bytes, header: Bytes, image: Bytes)
    requires |header| < TWO_TO_32
    ensures ParseImage(payload) == Some(Image(header, image)) <==> payload == ImageFrame(header, image)
  {
    ImageFrameSlices(header, image);
    UnpackOfPack(|header|);
    if ParseImage(payload) == Some(Image(header, image)) {
      PackOfUnpack(payload[..4]);
      assert payload == payload[..4] + payload[4..4 + |header|] + payload[4 + |header|..];
    }
  }
}
