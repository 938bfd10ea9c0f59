/** USAC v1 frames: header, payload, checksum, and the direction and length policy of every
    message type. */
module Frame {
  import opened Bytes
  import Crc32

  const MAGIC: seq<byte> := [0x55, 0x53, 0x41, 0x43]
  const VERSION: byte := 1
  const HEADER_SIZE := 16
  const CRC_SIZE := 4
  const HOST_MAX_PAYLOAD := 8192

  const RESPONSE: u16 := 1
  const ASYNC: u16 := 2
  const WARNING: u16 := 4

  const HELLO: byte := 0x01
  const GET_CAPABILITIES: byte := 0x02
  const GET_CONFIG: byte := 0x03
  const SET_CONFIG: byte := 0x04
  const CAPTURE_ONCE: byte := 0x05
  const START_PERIODIC: byte := 0x06
  const STOP: byte := 0x07
  const GET_STATUS: byte := 0x08
  const READ_REGISTER: byte := 0x09
  const WRITE_REGISTER: byte := 0x0A
  const RESET_DEVICE: byte := 0x0B
  const RENEW_PERIODIC_LEASE: byte := 0x0C
  const RUN_IO2_LOOPBACK_TEST: byte := 0x0E
  const CAPTURE_DATA: byte := 0x40
  const BRIDGE_HELLO: byte := 0x70
  const BRIDGE_HEARTBEAT: byte := 0x71
  const CORE_CHALLENGE: byte := 0x72
  const BRIDGE_DIAGNOSTIC: byte := 0x73
  const BRIDGE_CAPTURE_DELIVERY: byte := 0x74
  const CAPTURE_COMMITTED: byte := 0x75
  const BRIDGE_SPOOL_STATUS: byte := 0x76
  const REQUEST_ATTACHED: byte := 0x7D
  const ACK: byte := 0x7E
  const ERROR: byte := 0x7F

  predicate IsMessageType(b: byte) {
    1 <= b <= 0x0C || b == RUN_IO2_LOOPBACK_TEST || b == CAPTURE_DATA ||
    0x70 <= b <= 0x76 || 0x7D <= b <= 0x7F
  }

  datatype Frame = Frame(messageType: byte, sequence: u32, payload: seq<byte>, flags: u16)

  /** What encode_frame accepts: a known type, no reserved flag, a payload within bounds. */
  predicate Encodable(f: Frame) {
    IsMessageType(f.messageType) && f.flags < 8 && |f.payload| <= HOST_MAX_PAYLOAD
  }

  function Header(messageType: byte, flags: u16, sequence: u32, length: u32): (h: seq<byte>)
    ensures |h| == HEADER_SIZE
  {
    MAGIC + [VERSION, messageType] + Le16(flags) + Le32(sequence) + Le32(length)
  }

  function EncodeFrame(f: Frame): seq<byte>
    requires |f.payload| <= HOST_MAX_PAYLOAD
  {
    var head := Header(f.messageType, f.flags, f.sequence, |f.payload|);
    head + f.payload + Le32(Crc32.Checksum(head[4..] + f.payload))
  }

  datatype Decoded =
    | Accepted(frame: Frame)
    | Malformed        // ProtocolError
    | InvalidField     // ValueError from the field checks
    | BadChecksum      // CrcMismatchError

  function DecodeFrame(data: seq<byte>): Decoded {
    if |data| < HEADER_SIZE + CRC_SIZE then Malformed
    else if data[..4] != MAGIC then Malformed
    else if U32At(data, 12) > HOST_MAX_PAYLOAD then Malformed
    else if |data| != HEADER_SIZE + U32At(data, 12) + CRC_SIZE then Malformed
    else if !IsMessageType(data[5]) then Malformed
    else if data[4] != VERSION || U16At(data, 6) >= 8 then InvalidField
    else if U32At(data, |data| - 4) != Crc32.Checksum(data[4..|data| - 4]) then BadChecksum
    else Accepted(Frame(data[5], U32At(data, 8), data[HEADER_SIZE..|data| - CRC_SIZE], U16At(data, 6)))
  }

  lemma HeaderReads(messageType: byte, flags: u16, sequence: u32, length: u32)
    ensures var h := Header(messageType, flags, sequence, length);
            h[..4] == MAGIC && h[4] == VERSION && h[5] == messageType &&
            U16At(h, 6) == flags && U32At(h, 8) == sequence && U32At(h, 12) == length
  {
    var a := MAGIC + [VERSION, messageType];
    var h := Header(messageType, flags, sequence, length);
    assert h == a + Le16(flags) + (Le32(sequence) + Le32(length));
    Le16Reads(flags, a, Le32(sequence) + Le32(length));
    assert h == (a + Le16(flags)) + Le32(sequence) + Le32(length);
    Le32Reads(sequence, a + Le16(flags), Le32(length));
    assert h == (a + Le16(flags) + Le32(sequence)) + Le32(length) + [];
    Le32Reads(length, a + Le16(flags) + Le32(sequence), []);
  }

  /** Where the fields of an encoded frame are found, by either side's reader. */
  lemma EncodedReads(f: Frame)
    requires |f.payload| <= HOST_MAX_PAYLOAD
    ensures var s := EncodeFrame(f);
            |s| == HEADER_SIZE + |f.payload| + CRC_SIZE && s[..4] == MAGIC && s[4] == VERSION &&
            s[5] == f.messageType && U16At(s, 6) == f.flags && U32At(s, 8) == f.sequence &&
            U32At(s, 12) == |f.payload| && s[HEADER_SIZE..|s| - CRC_SIZE] == f.payload &&
            U32At(s, |s| - CRC_SIZE) == Crc32.Checksum(s[4..|s| - CRC_SIZE])
  {
    hide Le16, Le32, U16At, U32At, Crc32.Checksum;
    var n := |f.payload|;
    var head := Header(f.messageType, f.flags, f.sequence, n);
    var crc := Crc32.Checksum(head[4..] + f.payload);
    var data := EncodeFrame(f);
    HeaderReads(f.messageType, f.flags, f.sequence, n);
    assert data[..HEADER_SIZE] == head;
    assert data[..4] == head[..4];
    WordsOfPrefix(data, head, 6);
    WordsOfPrefix(data, head, 8);
    WordsOfPrefix(data, head, 12);
    assert |data| == HEADER_SIZE + n + CRC_SIZE;
    assert data[4..|data| - 4] == head[4..] + f.payload;
    assert data == (head + f.payload) + Le32(crc) + [];
    Le32Reads(crc, head + f.payload, []);
  }

  /** Whatever is encoded is decoded to the same fields. */
  lemma DecodeEncode(f: Frame)
    requires Encodable(f)
    ensures DecodeFrame(EncodeFrame(f)) == Accepted(f)
  {
    hide EncodeFrame, U16At, U32At, Crc32.Checksum;
    EncodedReads(f);
  }

  /** Bytes with the right magic, version, length and checksum are the encoding of what they say. */
  lemma ReadsBack(data: seq<byte>)
    requires HEADER_SIZE + CRC_SIZE <= |data| <= HEADER_SIZE + HOST_MAX_PAYLOAD + CRC_SIZE
    requires data[..4] == MAGIC && data[4] == VERSION && |data| == HEADER_SIZE + U32At(data, 12) + CRC_SIZE
    requires U32At(data, |data| - 4) == Crc32.Checksum(data[4..|data| - 4])
    ensures data == EncodeFrame(
                      Frame(data[5], U32At(data, 8), data[HEADER_SIZE..|data| - CRC_SIZE], U16At(data, 6)))
  {
    HeaderWritesBack(data);
    SliceWords(data, |data| - 4);
    SplitFrame(data);
    hide Header, Le16, Le32, U16At, U32At, Crc32.Checksum;
  }

  lemma SplitFrame(data: seq<byte>)
    requires |data| >= HEADER_SIZE + CRC_SIZE
    ensures var n := |data| - CRC_SIZE;
            data[..HEADER_SIZE][4..] + data[HEADER_SIZE..n] == data[4..n] &&
            data == data[..HEADER_SIZE] + data[HEADER_SIZE..n] + data[n..] && data[n..n + 4] == data[n..]
  {
  }

  lemma HeaderWritesBack(data: seq<byte>)
    requires |data| >= HEADER_SIZE && data[..4] == MAGIC && data[4] == VERSION
    ensures Header(data[5], U16At(data, 6), U32At(data, 8), U32At(data, 12)) == data[..HEADER_SIZE]
  {
    SliceWords(data, 6);
    SliceWords(data, 8);
    SliceWords(data, 12);
    hide Le16, Le32, U16At, U32At;
    assert data[..HEADER_SIZE] == data[..4] + [data[4], data[5]] + data[6..8] + data[8..12] + data[12..16];
  }

  /** Only the encoding of a frame decodes to it: the wire form is canonical. */
  lemma EncodeDecode(data: seq<byte>)
    ensures var d := DecodeFrame(data);
            d.Accepted? ==> Encodable(d.frame) && EncodeFrame(d.frame) == data
  {
    hide EncodeFrame, U16At, U32At, Crc32.Checksum;
    if DecodeFrame(data).Accepted? {
      ReadsBack(data);
    }
  }

  // ---------------------------------------------------------------- direction and length policy

  predicate ResponseFlags(flags: u16) {
    flags == RESPONSE || flags == RESPONSE + WARNING
  }

  predicate AsyncFlags(flags: u16) {
    flags == ASYNC || flags == ASYNC + WARNING
  }

  predicate EvenRange(length: nat, low: nat, high: nat) {
    low <= length <= high && (length - low) % 2 == 0
  }

  predicate FlagsValid(t: byte, flags: u16)
    requires IsMessageType(t)
  {
    if t == ACK || t == ERROR || t == REQUEST_ATTACHED then ResponseFlags(flags)
    else if t == BRIDGE_DIAGNOSTIC || t == BRIDGE_CAPTURE_DELIVERY || t == BRIDGE_SPOOL_STATUS then
      AsyncFlags(flags)
    else if t == CAPTURE_DATA then ResponseFlags(flags) || AsyncFlags(flags)
    else if t == RUN_IO2_LOOPBACK_TEST then flags == 0 || ResponseFlags(flags)
    else if t == SET_CONFIG || t == CAPTURE_ONCE || t == START_PERIODIC || t == STOP ||
            t == WRITE_REGISTER || t == RESET_DEVICE || t == CORE_CHALLENGE then flags == 0
    else flags == 0 || ResponseFlags(flags)
  }

  predicate LengthValid(t: byte, flags: u16, length: nat)
    requires IsMessageType(t)
  {
    var response := flags % 2 == 1;
    if t == HELLO then length == (if response then 64 else 20)
    else if t == GET_CAPABILITIES then length == (if response then 24 else 0)
    else if t == GET_CONFIG then if response then EvenRange(length, 52, 72) else length == 0
    else if t == SET_CONFIG then !response && EvenRange(length, 100, 120)
    else if t == CAPTURE_ONCE then !response && length == 60
    else if t == RUN_IO2_LOOPBACK_TEST then length == (if response then 86 else 56)
    else if t == START_PERIODIC then !response && length == 80
    else if t == STOP then !response && length == 32
    else if t == GET_STATUS then length == (if response then 100 else 0)
    else if t == READ_REGISTER then length == 4
    else if t == WRITE_REGISTER then !response && length == 20
    else if t == RESET_DEVICE then !response && length == 20
    else if t == RENEW_PERIODIC_LEASE then length == 40
    else if t == CAPTURE_DATA then 188 <= length <= 4576
    else if t == BRIDGE_HELLO then length == (if response then 16 else 112)
    else if t == BRIDGE_HEARTBEAT then length == 24
    else if t == CORE_CHALLENGE then !response && length == 44
    else if t == BRIDGE_DIAGNOSTIC then 64 <= length <= 128
    else if t == BRIDGE_CAPTURE_DELIVERY then 264 <= length <= 4708
    else if t == CAPTURE_COMMITTED then length == (if response then 24 else 68)
    else if t == BRIDGE_SPOOL_STATUS then length == 64
    else if t == REQUEST_ATTACHED then length == 26
    else if t == ACK then length == 24
    else 29 <= length <= 92
  }

  /** A frame the host parser may emit: it can be encoded and its header obeys the policy. */
  predicate Permitted(f: Frame) {
    Encodable(f) && FlagsValid(f.messageType, f.flags) &&
    LengthValid(f.messageType, f.flags, |f.payload|)
  }
}
