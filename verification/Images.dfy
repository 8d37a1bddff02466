/** Camera images on the wire: sent by a device with a JSON header, parsed and stored by the broker. */
module Images {
  import opened Prelude
  import opened Wire

  /** JSON of the image header, as parameters; decoding may fail. */
  datatype HeaderCodec<!H> = HeaderCodec(encode: H -> Bytes, decode: Bytes -> Option<H>)

  ghost predicate Invertible<H(!new)>(codec: HeaderCodec<H>) {
    forall h :: codec.decode(codec.encode(h)) == Some(h)
  }

  datatype Stored<H> = Stored(header: H, image: Bytes)

  /** What the broker stores for a payload: nothing if it is short, truncated, or its header does not decode. */
  function Received<H>(codec: HeaderCodec<H>, payload: Bytes): Option<Stored<H>> {
    match ParseImage(payload)
    case None => None
    case Some(i) =>
      match codec.decode(i.header)
      case None => None
      case Some(h) => Some(Stored(h, i.image))
  }

  function AllReceived<H>(codec: HeaderCodec<H>, payloads: seq<Bytes>): seq<Stored<H>> {
    if payloads == [] then []
    else
      AllReceived(codec, payloads[..|payloads| - 1])
      + match Received(codec, payloads[|payloads| - 1])
        case None => []
        case Some(s) => [s]
  }

  class Device<H> {
    const codec: HeaderCodec<H>
    var published: seq<Bytes>

    constructor (codec: HeaderCodec<H>)
      ensures this.codec == codec && published == []
    {
      this.codec, published := codec, [];
    }

    /** Raises if the length of the header does not fit in 32 bits. */
    method SendImage(header: H, image: Bytes) returns (raised: bool)
      modifies this
      ensures raised <==> |codec.encode(header)| >= TWO_TO_32
      ensures published == old(published) + if raised then [] else [ImageFrame(codec.encode(header), image)]
    {
      var headerBytes := codec.encode(header);
      if |headerBytes| >= TWO_TO_32 {
        return true;
      }
      var headerLength := PackU32(|headerBytes|);
      published := published + [headerLength + headerBytes + image];
      raised := false;
    }
  }

  class Broker<H> {
    const codec: HeaderCodec<H>
    var stored: seq<Stored<H>>

    constructor (codec: HeaderCodec<H>)
      ensures this.codec == codec && stored == []
    {
      this.codec, stored := codec, [];
    }

    method HandleImage(payload: Bytes)
      modifies this
      ensures stored == old(stored) + match Received(codec, payload) case None => [] case Some(s) => [s]
    {
      if |payload| < 4 {
        return;
      }
      var headerLen := UnpackU32(payload[..4]);
      if |payload| < 4 + headerLen {
        return;
      }
      var header := codec.decode(payload[4..4 + headerLen]);
      if header.None? {
        return;
      }
      stored := stored + [Stored(header.value, payload[4 + headerLen..])];
    }

    method HandleImages(payloads: seq<Bytes>)
      modifies this
      ensures stored == old(stored) + AllReceived(codec, payloads)
    {
      for n := 0 to |payloads|
        invariant stored == old(stored) + AllReceived(codec, payloads[..n])
      {
        assert payloads[..n + 1][..n] == payloads[..n];
        HandleImage(payloads[n]);
      }
      FullSlices(payloads);
    }
  }

  /** An image is stored with its header exactly when the payload is the frame of bytes that decode to that header. */
  lemma ReceivedIff<H>(codec: HeaderCodec<H>, payload: Bytes, s: Stored<H>)
    ensures Received(codec, payload) == Some(s)
            <==> exists header: Bytes :: |header| < TWO_TO_32 && codec.decode(header) == Some(s.header)
                                         && payload == ImageFrame(header, s.image)
  {
    if Received(codec, payload) == Some(s) {
      var i := ParseImage(payload).value;
      ImageRoundTrip(payload, i.header, i.image);
    }
    forall header: Bytes | |header| < TWO_TO_32 && codec.decode(header) == Some(s.header) && payload == ImageFrame(header, s.image)
      ensures Received(codec, payload) == Some(s)
    {
      ImageRoundTrip(payload, header, s.image);
    }
  }

  predicate Framable<H>(codec: HeaderCodec<H>, s: Stored<H>) {
    |codec.encode(s.header)| < TWO_TO_32
  }

  function FrameOf<H>(codec: HeaderCodec<H>, s: Stored<H>): Bytes
    requires Framable(codec, s)
  {
    ImageFrame(codec.encode(s.header), s.image)
  }

  function Frames<H>(codec: HeaderCodec<H>, images: seq<Stored<H>>): seq<Bytes>
    requires forall s :: s in images ==> Framable(codec, s)
  {
    if images == [] then []
    else Frames(codec, images[..|images| - 1]) + [FrameOf(codec, images[|images| - 1])]
  }

  lemma FrameIsReceived<H(!new)>(codec: HeaderCodec<H>, s: Stored<H>)
    requires Invertible(codec) && Framable(codec, s)
    ensures Received(codec, FrameOf(codec, s)) == Some(s)
  {
    ImageRoundTrip(FrameOf(codec, s), codec.encode(s.header), s.image);
  }

  lemma ReceivedOneMore<H>(codec: HeaderCodec<H>, payloads: seq<Bytes>, payload: Bytes, s: Stored<H>)
    requires Received(codec, payload) == Some(s)
    ensures AllReceived(codec, payloads + [payload]) == AllReceived(codec, payloads) + [s]
  {
    assert (payloads + [payload])[..|payloads|] == payloads;
  }

  /** Every image that is sent is stored, with its header and bytes, in the order of sending. */
  lemma {:induction false} SentImagesAreStored<H(!new)>(codec: HeaderCodec<H>, images: seq<Stored<H>>)
    requires Invertible(codec) && forall s :: s in images ==> Framable(codec, s)
    ensures AllReceived(codec, Frames(codec, images)) == images
  {
    if images != [] {
      var fewer, last := images[..|images| - 1], images[|images| - 1];
      SentImagesAreStored(codec, fewer);
      FrameIsReceived(codec, last);
      ReceivedOneMore(codec, Frames(codec, fewer), FrameOf(codec, last), last);
      TakeOneMore(images, |images| - 1);
      FullSlices(images);
    }
  }
}
