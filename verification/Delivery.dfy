/** Records exchanged between the bridge spool and the core archive. */
module Delivery {
  import opened Bytes

  datatype Option<+T> = None | Some(value: T)

  /** What makes a capture the same capture: device, boot session, capture. */
  datatype Identity = Identity(device: Id16, boot: Id16, capture: Id16)

  /** Where the bridge read the frame from its serial stream, and when it stored it. */
  datatype Source = Source(connection: nat, firstOffset: nat, lastOffset: nat, storedUtc: int)

  /** BRIDGE_CAPTURE_DELIVERY. */
  datatype Parcel = Parcel(connection: nat, record: nat, source: Source, frame: seq<byte>)

  /** CAPTURE_COMMITTED request. */
  datatype Receipt = Receipt(connection: nat, record: nat, identity: Identity, crc: u32)

  /** The functions of a frame's bytes that delivery relies on: the identity that
      decode_frame and decode_capture_data find in it (None when either refuses it),
      its CRC-32 and its SHA-256. Nothing below depends on which functions these are. */
  datatype Codec = Codec(
    identity: seq<byte> -> Option<Identity>,
    crc: seq<byte> -> u32,
    sha: seq<byte> -> Hash32)

  const MIN_INNER := 208
  const MAX_INNER := 4652

  predicate SourceCovers(source: Source, frame: seq<byte>) {
    source.lastOffset - source.firstOffset + 1 == |frame|
  }

  /** The checks of encode_bridge_capture_delivery, made by the bridge and again by core. */
  predicate Deliverable(codec: Codec, p: Parcel) {
    MIN_INNER <= |p.frame| <= MAX_INNER && SourceCovers(p.source, p.frame) &&
    codec.identity(p.frame).Some?
  }

  function ReceiptFor(codec: Codec, p: Parcel): Receipt
    requires codec.identity(p.frame).Some?
  {
    Receipt(p.connection, p.record, codec.identity(p.frame).value, codec.crc(p.frame))
  }
}
