/** The firmware's CAPTURE_DATA frame in four segments: header, metadata, the DMA waveform
    itself, and a checksum computed over the first three before any is sent. */
module CaptureStream {
  import opened Bytes
  import opened Delivery
  import opened Packing
  import CD = CaptureData
  import F = Frame
  import Crc32

  const SAMPLE_COUNT := 2048
  const METADATA_MAX := 480
  const REGISTER_COUNT := 10
  const TIMING_UNCALIBRATED: u32 := 0x20

  type Sha = seq<byte> -> Hash32

  datatype Descriptor = Descriptor(
    requestId: Id16, scheduleId: Id16, bootId: Id16, deviceId: Id16, profile: Hash32,
    configCrc: u32, frameSequence: u32, captureSequence: u32, async: bool,
    sampleInterval: u16, burstPeriod: u16, pretrigger: u16,
    devStat: byte, out3Level: byte, out4Level: byte, qualityFlags: u32,
    events: seq<CD.CaptureEvent>, registers: seq<CD.RegisterPair>)

  /** The capacities of the descriptor's arrays. */
  predicate Fits(d: Descriptor) {
    |d.events| <= 17 && |d.registers| == REGISTER_COUNT
  }

  function CaptureId(sha: Sha, d: Descriptor): Id16 {
    sha(d.bootId + d.requestId + Le32(d.captureSequence))[..16]
  }

  function Signed(u: u32): i32 {
    if u >= 0x8000_0000 then u - 0x1_0000_0000 else u
  }

  /** Ticks from the trigger back to the first sample; it fits a word. */
  function TriggerTicks(d: Descriptor): (t: u32)
    ensures t == d.pretrigger * d.sampleInterval
  {
    TicksFit(d.pretrigger, d.sampleInterval);
    d.pretrigger * d.sampleInterval
  }

  lemma TicksFit(a: u16, b: u16)
    ensures 0 <= a * b < 0x1_0000_0000
  {
    ProductBelow(a, b, 0xFFFF);
  }

  lemma {:induction false} ProductBelow(a: nat, b: nat, k: nat)
    requires b <= k
    ensures 0 <= a * b <= a * k
  {
    if a > 0 {
      ProductBelow(a - 1, b, k);
      assert a * b == (a - 1) * b + b && a * k == (a - 1) * k + k;
    }
  }

  function Negated(u: u32): u32 {
    if u == 0 then 0 else 0x1_0000_0000 - u
  }

  /** What the descriptor and the samples say, in the host's terms. */
  function CaptureOf(sha: Sha, d: Descriptor, samples: seq<u16>): CD.CaptureData {
    CD.CaptureData(
      d.requestId, d.scheduleId, CaptureId(sha, d), d.bootId, d.deviceId, d.profile,
      d.configCrc, d.captureSequence, d.sampleInterval, d.burstPeriod, SAMPLE_COUNT, d.pretrigger,
      12, 1, 3300, 24_000_000, 0, 0, TriggerTicks(d), Signed(Negated(TriggerTicks(d))), 1000, 0, 0, d.qualityFlags,
      d.devStat, d.out3Level, d.out4Level, d.registers, d.events, samples)
  }

  /** The descriptors whose frame the host accepts. */
  predicate DescriptorValid(d: Descriptor) {
    Fits(d) && d.pretrigger < SAMPLE_COUNT && CD.RegistersOrdered(d.registers) &&
    forall i :: 0 <= i < |d.events| ==> CD.EventValid(d.events[i], d.sampleInterval)
  }

  // ---------------------------------------------------------------- the four segments

  function FrameFlags(d: Descriptor): u16 {
    if d.async then F.ASYNC else F.RESPONSE
  }

  function MetadataSegment(sha: Sha, d: Descriptor, samples: seq<u16>): seq<byte>
    requires Fits(d) && |samples| == SAMPLE_COUNT
  {
    CD.Metadata(CaptureOf(sha, d, samples))
  }

  function HeaderSegment(d: Descriptor, metadataLength: nat): seq<byte>
    requires metadataLength <= METADATA_MAX
  {
    F.Header(F.CAPTURE_DATA, FrameFlags(d), d.frameSequence, metadataLength + 2 * SAMPLE_COUNT)
  }

  /** The checksum register carried across the three segments. */
  function CrcSegment(header: seq<byte>, metadata: seq<byte>, samples: seq<byte>): seq<byte>
    requires |header| >= 4
  {
    var a := Crc32.Update(Crc32.ALL_ONES, header[4..]);
    var b := Crc32.Update(a, metadata);
    var c := Crc32.Update(b, samples);
    Crc32.UpdateBelow(Crc32.ALL_ONES, header[4..]);
    Crc32.UpdateBelow(a, metadata);
    Crc32.UpdateBelow(b, samples);
    Le32(Crc32.Finish(c))
  }

  /** One checksum over three pieces is the checksum of their concatenation. */
  lemma CrcOfSegments(header: seq<byte>, metadata: seq<byte>, samples: seq<byte>)
    requires |header| >= 4
    ensures CrcSegment(header, metadata, samples) == Le32(Crc32.Checksum(header[4..] + (metadata + samples)))
  {
    hide Crc32.Update, Crc32.Xor, Le32;
    Crc32.UpdateConcat(Crc32.ALL_ONES, header[4..], metadata + samples);
    Crc32.UpdateConcat(Crc32.Update(Crc32.ALL_ONES, header[4..]), metadata, samples);
  }

  /** The frame the segments make up. */
  function FrameOf(sha: Sha, d: Descriptor, samples: seq<u16>): F.Frame
    requires Fits(d) && |samples| == SAMPLE_COUNT
  {
    F.Frame(F.CAPTURE_DATA, d.frameSequence,
            MetadataSegment(sha, d, samples) + CD.SampleBytes(samples), FrameFlags(d))
  }

  function WireBytes(sha: Sha, d: Descriptor, samples: seq<u16>): seq<byte>
    requires Fits(d) && |samples| == SAMPLE_COUNT
  {
    SegmentLengths(sha, d, samples);
    var metadata := MetadataSegment(sha, d, samples);
    var header := HeaderSegment(d, |metadata|);
    header + metadata + CD.SampleBytes(samples) + CrcSegment(header, metadata, CD.SampleBytes(samples))
  }

  /** The length policy of CAPTURE_DATA is the codec's: it permits the encoding of every valid capture of up
      to 2048 samples, and no length that all registers, events and 2048 samples would not reach. */
  lemma CaptureLengths(c: CD.CaptureData, n: nat)
    ensures CD.Valid(c) && |c.samples| <= SAMPLE_COUNT ==>
              F.LengthValid(F.CAPTURE_DATA, F.RESPONSE, |CD.Encode(c).value|)
    ensures F.LengthValid(F.CAPTURE_DATA, F.RESPONSE, n) <==>
              CD.FIXED_HEADER_LENGTH <= n <=
                CD.FIXED_HEADER_LENGTH + 2 * CD.MAX_REGISTERS + 16 * CD.MAX_EVENTS + 2 * SAMPLE_COUNT
  {
    if CD.Valid(c) && |c.samples| <= SAMPLE_COUNT {
      var h := CD.HeaderOf(c, |c.events|, |c.registers|, 2 * |c.samples|);
      CD.HeaderOfShaped(c, |c.events|, |c.registers|, 2 * |c.samples|);
      CD.CutHeaderBytes(h, []);
      CD.ListBytes(c);
    }
    hide CD.HeaderOf, CD.HeaderBytes, CD.HeaderShaped, Join, CD.PairFields, CD.EventFields, CD.CutHeader, CD.RegistersOrdered;
  }

  lemma SegmentLengths(sha: Sha, d: Descriptor, samples: seq<u16>)
    requires Fits(d) && |samples| == SAMPLE_COUNT
    ensures |MetadataSegment(sha, d, samples)| == 208 + 16 * |d.events| <= METADATA_MAX
    ensures |CD.SampleBytes(samples)| == 2 * SAMPLE_COUNT
  {
    var c := CaptureOf(sha, d, samples);
    var h := CD.HeaderOf(c, |c.events|, |c.registers|, 2 * |c.samples|);
    CD.HeaderOfShaped(c, |c.events|, |c.registers|, 2 * |c.samples|);
    CD.CutHeaderBytes(h, []);
    CD.ListBytes(c);
    hide CD.HeaderOf, CD.HeaderBytes, CD.HeaderShaped, Join, CD.SampleBytes, CD.PairFields, CD.EventFields, CD.CutHeader;
  }

  lemma JoinedIsFrame(f: F.Frame, metadata: seq<byte>, bytes: seq<byte>)
    requires f.payload == metadata + bytes && |f.payload| <= F.HOST_MAX_PAYLOAD
    ensures var header := F.Header(f.messageType, f.flags, f.sequence, |f.payload|);
            header + metadata + bytes + CrcSegment(header, metadata, bytes) == F.EncodeFrame(f)
  {
    var header := F.Header(f.messageType, f.flags, f.sequence, |f.payload|);
    CrcOfSegments(header, metadata, bytes);
    hide CrcSegment, F.Header, Le32, Crc32.Checksum;
    assert header + metadata + bytes == header + (metadata + bytes);
  }

  /** Sent one after another the four segments are the encoding of one frame. */
  lemma SegmentsAreFrame(sha: Sha, d: Descriptor, samples: seq<u16>)
    requires Fits(d) && |samples| == SAMPLE_COUNT
    ensures var f := FrameOf(sha, d, samples);
            |f.payload| <= F.HOST_MAX_PAYLOAD && WireBytes(sha, d, samples) == F.EncodeFrame(f)
  {
    hide MetadataSegment, CD.SampleBytes, F.Header, F.EncodeFrame, CrcSegment;
    SegmentLengths(sha, d, samples);
    JoinedIsFrame(FrameOf(sha, d, samples), MetadataSegment(sha, d, samples), CD.SampleBytes(samples));
  }

  lemma FramePermitted(sha: Sha, d: Descriptor, samples: seq<u16>)
    requires Fits(d) && |samples| == SAMPLE_COUNT
    ensures F.Permitted(FrameOf(sha, d, samples))
  {
    hide MetadataSegment, CD.SampleBytes;
    SegmentLengths(sha, d, samples);
  }

  lemma PayloadDecodes(sha: Sha, d: Descriptor, samples: seq<u16>)
    requires Fits(d) && |samples| == SAMPLE_COUNT
    ensures CD.Decode(FrameOf(sha, d, samples).payload) ==
              if DescriptorValid(d) then Some(CaptureOf(sha, d, samples)) else None
  {
    hide CD.Decode, CD.Metadata, CD.SampleBytes, CD.Valid, DescriptorValid;
    CD.DecodeWritten(CaptureOf(sha, d, samples));
    ValidityAgrees(sha, d, samples);
  }

  /** End to end: the host decodes the sent bytes to a permitted CAPTURE_DATA frame, and its
      payload to exactly the descriptor and the samples; it refuses the payload exactly when
      the descriptor is not one a capture can have. */
  lemma WaveformDelivered(sha: Sha, d: Descriptor, samples: seq<u16>)
    requires Fits(d) && |samples| == SAMPLE_COUNT
    ensures var f := FrameOf(sha, d, samples);
            F.Permitted(f) && F.DecodeFrame(WireBytes(sha, d, samples)) == F.Accepted(f) &&
            CD.Decode(f.payload) == (if DescriptorValid(d) then Some(CaptureOf(sha, d, samples)) else None)
  {
    hide *;
    SegmentsAreFrame(sha, d, samples);
    FramePermitted(sha, d, samples);
    PermittedEncodable(FrameOf(sha, d, samples));
    F.DecodeEncode(FrameOf(sha, d, samples));
    PayloadDecodes(sha, d, samples);
  }

  lemma PermittedEncodable(f: F.Frame)
    ensures F.Permitted(f) ==> F.Encodable(f)
  {
  }

  lemma ValidityAgrees(sha: Sha, d: Descriptor, samples: seq<u16>)
    requires Fits(d) && |samples| == SAMPLE_COUNT
    ensures CD.Valid(CaptureOf(sha, d, samples)) <==> DescriptorValid(d)
  {
  }
}
