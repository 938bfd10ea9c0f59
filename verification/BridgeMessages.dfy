/** The payloads of BRIDGE_CAPTURE_DELIVERY and CAPTURE_COMMITTED, and the codec the delivery
    machine runs on: what decode_frame and decode_capture_data find in a frame. */
module BridgeMessages {
  import opened Bytes
  import opened Delivery
  import opened Packing
  import F = Frame
  import CD = CaptureData
  import Crc32

  const WORD64 := 0x1_0000_0000_0000_0000
  const PREFIX := 56

  /** The CAPTURE_DATA payload of a frame that both host decoders accept. */
  function CaptureIn(frame: seq<byte>): Option<CD.CaptureData> {
    match F.DecodeFrame(frame)
    case Accepted(f) => if f.messageType == F.CAPTURE_DATA then CD.Decode(f.payload) else None
    case _ => None
  }

  function IdentityIn(frame: seq<byte>): Option<Identity> {
    match CaptureIn(frame)
    case Some(c) => Some(Identity(c.deviceId, c.bootId, c.captureId))
    case None => None
  }

  /** The functions of a frame that spool and archive use; SHA-256 stays any function. */
  function HostCodec(sha: seq<byte> -> Hash32): Codec {
    Codec(IdentityIn, Crc32.Checksum, sha)
  }

  // ---------------------------------------------------------------- delivery

  predicate Packable(p: Parcel) {
    p.connection < WORD64 && p.record < WORD64 && p.source.connection < WORD64 && p.source.firstOffset < WORD64 &&
    p.source.lastOffset < WORD64 && 0 <= p.source.storedUtc < WORD64
  }

  predicate InnerFrame(frame: seq<byte>) {
    MIN_INNER <= |frame| <= MAX_INNER && F.DecodeFrame(frame).Accepted? &&
    F.DecodeFrame(frame).frame.messageType == F.CAPTURE_DATA
  }

  function DeliveryBytes(p: Parcel): seq<byte>
    requires Packable(p) && |p.frame| < 0x1_0000_0000
  {
    Pack64(p.connection) + Pack64(p.record) + Pack64(p.source.connection) + Pack64(p.source.firstOffset) +
    Pack64(p.source.lastOffset) + Pack64(p.source.storedUtc) + Pack32(|p.frame|) + Pack32(Crc32.Checksum(p.frame)) +
    p.frame
  }

  function EncodeDelivery(p: Parcel): Option<seq<byte>> {
    if InnerFrame(p.frame) && SourceCovers(p.source, p.frame) && Packable(p) then Some(DeliveryBytes(p)) else None
  }

  function ReadDelivery(w: seq<byte>): Parcel
    requires |w| >= PREFIX
  {
    Parcel(Unpack64(w[0..8]), Unpack64(w[8..16]),
           Source(Unpack64(w[16..24]), Unpack64(w[24..32]), Unpack64(w[32..40]), Unpack64(w[40..48])), w[PREFIX..])
  }

  function DecodeDelivery(w: seq<byte>): Option<Parcel> {
    if |w| < PREFIX then None
    else if |w| != PREFIX + Unpack32(w[48..52]) then None
    else if Crc32.Checksum(w[PREFIX..]) != Unpack32(w[52..56]) then None
    else
      var p := ReadDelivery(w);
      if EncodeDelivery(p).Some? then Some(p) else None
  }

  lemma EightWords(a: seq<byte>, b: seq<byte>, c: seq<byte>, d: seq<byte>, e: seq<byte>, f: seq<byte>,
                   g: seq<byte>, h: seq<byte>, rest: seq<byte>)
    requires |a| == |b| == |c| == |d| == |e| == |f| == 8 && |g| == |h| == 4
    ensures var w := a + b + c + d + e + f + g + h + rest;
            |w| == 56 + |rest| && w[0..8] == a && w[8..16] == b && w[16..24] == c && w[24..32] == d && w[32..40] == e &&
            w[40..48] == f && w[48..52] == g && w[52..56] == h && w[56..] == rest
  {
  }

  lemma EightSlices(w: seq<byte>)
    requires |w| >= 56
    ensures w == w[0..8] + w[8..16] + w[16..24] + w[24..32] + w[32..40] + w[40..48] + w[48..52] + w[52..56] + w[56..]
  {
  }

  lemma DeliveryReads(p: Parcel)
    requires Packable(p) && |p.frame| < 0x1_0000_0000
    ensures var w := DeliveryBytes(p);
            |w| == PREFIX + |p.frame| && ReadDelivery(w) == p && w[PREFIX..] == p.frame &&
            Unpack32(w[48..52]) == |p.frame| && Unpack32(w[52..56]) == Crc32.Checksum(p.frame)
  {
    hide Pack32, Pack64, Unpack32, Unpack64, Crc32.Checksum;
    Word64(p.connection, []);
    Word64(p.record, []);
    Word64(p.source.connection, []);
    Word64(p.source.firstOffset, []);
    Word64(p.source.lastOffset, []);
    Word64(p.source.storedUtc, []);
    Word32(|p.frame|, []);
    Word32(Crc32.Checksum(p.frame), []);
    EightWords(Pack64(p.connection), Pack64(p.record), Pack64(p.source.connection), Pack64(p.source.firstOffset),
               Pack64(p.source.lastOffset), Pack64(p.source.storedUtc), Pack32(|p.frame|),
               Pack32(Crc32.Checksum(p.frame)), p.frame);
  }

  lemma DeliveryWrites(w: seq<byte>)
    requires |w| >= PREFIX && |w| == PREFIX + Unpack32(w[48..52])
    requires Crc32.Checksum(w[PREFIX..]) == Unpack32(w[52..56])
    ensures Packable(ReadDelivery(w)) && DeliveryBytes(ReadDelivery(w)) == w
  {
    hide Pack32, Pack64, Unpack32, Unpack64, Crc32.Checksum;
    Word64(0, w[0..8]);
    Word64(0, w[8..16]);
    Word64(0, w[16..24]);
    Word64(0, w[24..32]);
    Word64(0, w[32..40]);
    Word64(0, w[40..48]);
    Word32(0, w[48..52]);
    Word32(0, w[52..56]);
    EightSlices(w);
  }

  /** Each direction undoes the other on everything either accepts. */
  lemma DeliveryInverse(p: Parcel, w: seq<byte>)
    ensures EncodeDelivery(p) == Some(w) <==> DecodeDelivery(w) == Some(p)
  {
    hide InnerFrame, Packable, DeliveryBytes, ReadDelivery, Unpack32, Crc32.Checksum, SourceCovers;
    if EncodeDelivery(p).Some? {
      InnerSmall(p.frame);
      DeliveryReads(p);
    }
    if DecodeDelivery(w).Some? {
      DeliveryWrites(w);
    }
  }

  lemma InnerSmall(frame: seq<byte>)
    ensures InnerFrame(frame) ==> |frame| < 0x1_0000_0000
  {
    hide F.DecodeFrame;
  }

  // ---------------------------------------------------------------- receipt

  predicate ReceiptPackable(r: Receipt) {
    r.connection < WORD64 && r.record < WORD64
  }

  function EncodeReceipt(r: Receipt): Option<seq<byte>> {
    if !ReceiptPackable(r) then None
    else Some(Pack64(r.connection) + Pack64(r.record) + r.identity.device + r.identity.boot + r.identity.capture + Pack32(r.crc))
  }

  function DecodeReceipt(w: seq<byte>): Option<Receipt> {
    if |w| != 68 then None
    else Some(Receipt(Unpack64(w[0..8]), Unpack64(w[8..16]), Identity(w[16..32], w[32..48], w[48..64]), Unpack32(w[64..68])))
  }

  lemma ReceiptInverse(r: Receipt, w: seq<byte>)
    ensures EncodeReceipt(r) == Some(w) <==> DecodeReceipt(w) == Some(r)
  {
    hide Pack32, Pack64, Unpack32, Unpack64;
    if ReceiptPackable(r) {
      Word64(r.connection, []);
      Word64(r.record, []);
      Word32(r.crc, []);
      SixParts(Pack64(r.connection), Pack64(r.record), r.identity.device, r.identity.boot, r.identity.capture, Pack32(r.crc));
    }
    if |w| == 68 {
      Word64(0, w[0..8]);
      Word64(0, w[8..16]);
      Word32(0, w[64..68]);
      assert w == w[0..8] + w[8..16] + w[16..32] + w[32..48] + w[48..64] + w[64..68];
    }
  }

  lemma SixParts(a: seq<byte>, b: seq<byte>, c: seq<byte>, d: seq<byte>, e: seq<byte>, f: seq<byte>)
    requires |a| == |b| == 8 && |c| == |d| == |e| == 16 && |f| == 4
    ensures var w := a + b + c + d + e + f;
            |w| == 68 && w[0..8] == a && w[8..16] == b && w[16..32] == c && w[32..48] == d && w[48..64] == e && w[64..68] == f
  {
  }

  // ---------------------------------------------------------------- the bridge's response

  datatype Committed = Committed(connection: nat, record: nat, disposition: byte)

  function EncodeCommitted(m: Committed): Option<seq<byte>> {
    if !(m.connection < WORD64 && m.record < WORD64 && 1 <= m.disposition <= 2) then None
    else Some(Pack64(m.connection) + Pack64(m.record) + [m.disposition] + Zeros(7))
  }

  function DecodeCommitted(w: seq<byte>): Option<Committed> {
    if |w| != 24 then None
    else if w[17..24] != Zeros(7) then None
    else Some(Committed(Unpack64(w[0..8]), Unpack64(w[8..16]), w[16]))
  }

  /** The client reads the response the bridge wrote; from other bytes it may read any disposition. */
  lemma CommittedReads(m: Committed, w: seq<byte>)
    ensures EncodeCommitted(m) == Some(w) <==> DecodeCommitted(w) == Some(m) && 1 <= m.disposition <= 2
  {
    hide Pack64, Unpack64;
    if m.connection < WORD64 && m.record < WORD64 {
      Word64(m.connection, []);
      Word64(m.record, []);
      var v := Pack64(m.connection) + Pack64(m.record) + [m.disposition] + Zeros(7);
      assert v[0..8] == Pack64(m.connection) && v[8..16] == Pack64(m.record) && v[17..24] == Zeros(7);
    }
    if |w| == 24 {
      Word64(0, w[0..8]);
      Word64(0, w[8..16]);
      assert w == w[0..8] + w[8..16] + [w[16]] + w[17..24];
    }
  }

  // ---------------------------------------------------------------- on the stream

  /** Every delivery, receipt and response is a frame the length policy permits, and the policy permits
      no delivery that is shorter or longer than the inner frames the codec accepts. */
  lemma BridgeFramesPermitted(p: Parcel, r: Receipt, m: Committed, w: seq<byte>, sequence: u32, n: nat)
    ensures EncodeDelivery(p) == Some(w) ==> F.Permitted(F.Frame(F.BRIDGE_CAPTURE_DELIVERY, sequence, w, F.ASYNC))
    ensures EncodeReceipt(r) == Some(w) ==> F.Permitted(F.Frame(F.CAPTURE_COMMITTED, sequence, w, 0))
    ensures EncodeCommitted(m) == Some(w) ==> F.Permitted(F.Frame(F.CAPTURE_COMMITTED, sequence, w, F.RESPONSE))
    ensures F.LengthValid(F.BRIDGE_CAPTURE_DELIVERY, F.ASYNC, PREFIX + n) <==> MIN_INNER <= n <= MAX_INNER
  {
    hide Pack32, Pack64, Crc32.Checksum, F.DecodeFrame;
  }
}
