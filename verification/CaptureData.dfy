/** The host's CAPTURE_DATA codec: a 188-byte fixed header, register pairs, edge events and
    raw samples. */
module CaptureData {
  import opened Bytes
  import opened Delivery
  import opened Packing

  const SCHEMA_VERSION: u16 := 1
  const FIXED_HEADER_LENGTH := 188
  const MAX_REGISTERS := 10
  const MAX_EVENTS := 17

  datatype CaptureEvent = CaptureEvent(
    channel: byte, edge: byte, captureMethod: byte, levelAfter: byte,
    sampleIndex: i32, subsampleTick: u16, uncertaintyTicks: u16, frameOffsetTicks: u32)

  datatype RegisterPair = RegisterPair(address: byte, value: byte)

  datatype CaptureData = CaptureData(
    requestId: Id16, scheduleId: Id16, captureId: Id16, bootId: Id16, deviceId: Id16,
    profile: Hash32,
    configCrc: u32, captureSequence: u32,
    sampleInterval: u16, burstPeriod: u16,
    sampleCount: u16, pretriggerCount: u16,
    adcBits: byte, sampleEncoding: byte, vrefMv: u16,
    smclkNominal: u32, smclkCalibrated: u32,
    frameStart: u64,
    triggerOffset: u32, adcHoldOffset: i32,
    adcApertureNs: u32, triggerToOutputNs: u32, calibrationVersion: u32, qualityFlags: u32,
    devStat: byte, out3Level: byte, out4Level: byte,
    registers: seq<RegisterPair>, events: seq<CaptureEvent>, samples: seq<u16>)

  // ---------------------------------------------------------------- validation

  predicate RegistersOrdered(registers: seq<RegisterPair>) {
    (forall i :: 0 <= i < |registers| ==> registers[i].address <= 0x3F) &&
    forall i, j :: 0 <= i < j < |registers| ==> registers[i].address < registers[j].address
  }

  predicate EventValid(e: CaptureEvent, interval: u16) {
    (e.channel == 3 || e.channel == 4) && (e.edge == 1 || e.edge == 2) &&
    (e.captureMethod == 1 || e.captureMethod == 2) && e.levelAfter <= 1 && e.subsampleTick < interval
  }

  predicate Valid(c: CaptureData) {
    c.sampleCount == |c.samples| && c.pretriggerCount < c.sampleCount &&
    c.adcBits == 12 && c.sampleEncoding == 1 && c.frameStart < 0x1_0000_0000_0000 &&
    |c.registers| <= MAX_REGISTERS && |c.events| <= MAX_EVENTS &&
    RegistersOrdered(c.registers) && forall i :: 0 <= i < |c.events| ==> EventValid(c.events[i], c.sampleInterval)
  }

  /** The register check as it is made: each address against the one before. */
  method CheckRegisters(registers: seq<RegisterPair>) returns (ok: bool)
    ensures ok == RegistersOrdered(registers)
  {
    var previous: int := -1;
    for i := 0 to |registers|
      invariant previous == if i == 0 then -1 else registers[i - 1].address
      invariant RegistersOrdered(registers[..i])
    {
      if registers[i].address <= previous || registers[i].address > 0x3F {
        if registers[i].address <= previous {
          assert !(registers[i - 1].address < registers[i].address);
        }
        return false;
      }
      forall k | 0 <= k < i ensures registers[k].address < registers[i].address {
        assert registers[..i][k] == registers[k];
        if k < i - 1 {
          assert registers[..i][k].address < registers[..i][i - 1].address;
        }
      }
      previous := registers[i].address;
    }
    assert registers[..|registers|] == registers;
    return true;
  }

  // ---------------------------------------------------------------- fields

  const IDENTITY_WIDTHS: seq<nat> := [2, 2, 16, 16, 16, 16, 16, 32]
  const SHAPE_WIDTHS: seq<nat> := [4, 4, 2, 2, 2, 2, 1, 1, 2]
  const TIMING_WIDTHS: seq<nat> := [4, 4, 8, 4, 4, 4, 4, 4, 4]
  const STATUS_WIDTHS: seq<nat> := [1, 1, 1, 1, 1, 3, 4]

  function IdentityFields(c: CaptureData): seq<seq<byte>> {
    [Pack16(SCHEMA_VERSION), Pack16(FIXED_HEADER_LENGTH),
     c.requestId, c.scheduleId, c.captureId, c.bootId, c.deviceId, c.profile]
  }

  function ShapeFields(c: CaptureData): seq<seq<byte>> {
    [Pack32(c.configCrc), Pack32(c.captureSequence), Pack16(c.sampleInterval), Pack16(c.burstPeriod),
     Pack16(c.sampleCount), Pack16(c.pretriggerCount), [c.adcBits], [c.sampleEncoding], Pack16(c.vrefMv)]
  }

  function TimingFields(c: CaptureData): seq<seq<byte>> {
    [Pack32(c.smclkNominal), Pack32(c.smclkCalibrated), Pack64(c.frameStart), Pack32(c.triggerOffset),
     PackI32(c.adcHoldOffset), Pack32(c.adcApertureNs), Pack32(c.triggerToOutputNs), Pack32(c.calibrationVersion),
     Pack32(c.qualityFlags)]
  }

  function StatusFields(c: CaptureData, events: byte, registers: byte, sampleBytes: u32): seq<seq<byte>> {
    [[c.devStat], [c.out3Level], [c.out4Level], [events], [registers], [0, 0, 0], Pack32(sampleBytes)]
  }

  predicate IdentityShaped(f: seq<seq<byte>>) {
    |f| == 8 && |f[0]| == 2 && |f[1]| == 2 && |f[2]| == 16 && |f[3]| == 16 && |f[4]| == 16 && |f[5]| == 16 &&
    |f[6]| == 16 && |f[7]| == 32
  }

  predicate ShapeShaped(f: seq<seq<byte>>) {
    |f| == 9 && |f[0]| == 4 && |f[1]| == 4 && |f[2]| == 2 && |f[3]| == 2 && |f[4]| == 2 && |f[5]| == 2 &&
    |f[6]| == 1 && |f[7]| == 1 && |f[8]| == 2
  }

  predicate TimingShaped(f: seq<seq<byte>>) {
    |f| == 9 && |f[0]| == 4 && |f[1]| == 4 && |f[2]| == 8 && |f[3]| == 4 && |f[4]| == 4 && |f[5]| == 4 &&
    |f[6]| == 4 && |f[7]| == 4 && |f[8]| == 4
  }

  predicate StatusShaped(f: seq<seq<byte>>) {
    |f| == 7 && |f[0]| == 1 && |f[1]| == 1 && |f[2]| == 1 && |f[3]| == 1 && |f[4]| == 1 && |f[5]| == 3 && |f[6]| == 4
  }

  /** The four groups of header fields, as they are taken from the payload. */
  datatype Header = Header(
    identity: seq<seq<byte>>, shape: seq<seq<byte>>, timing: seq<seq<byte>>, status: seq<seq<byte>>)

  predicate HeaderShaped(h: Header) {
    IdentityShaped(h.identity) && ShapeShaped(h.shape) && TimingShaped(h.timing) && StatusShaped(h.status)
  }

  function HeaderOf(c: CaptureData, events: byte, registers: byte, sampleBytes: u32): Header {
    Header(IdentityFields(c), ShapeFields(c), TimingFields(c), StatusFields(c, events, registers, sampleBytes))
  }

  function ReadHeader(
    h: Header, registers: seq<RegisterPair>, events: seq<CaptureEvent>, samples: seq<u16>): CaptureData
    requires HeaderShaped(h)
  {
    var (i, s, t, u) := (h.identity, h.shape, h.timing, h.status);
    CaptureData(
      i[2], i[3], i[4], i[5], i[6], i[7],
      Unpack32(s[0]), Unpack32(s[1]), Unpack16(s[2]), Unpack16(s[3]), Unpack16(s[4]), Unpack16(s[5]), s[6][0], s[7][0],
      Unpack16(s[8]),
      Unpack32(t[0]), Unpack32(t[1]), Unpack64(t[2]), Unpack32(t[3]), UnpackI32(t[4]), Unpack32(t[5]), Unpack32(t[6]),
      Unpack32(t[7]), Unpack32(t[8]),
      u[0][0], u[1][0], u[2][0], registers, events, samples)
  }

  lemma HeaderOfShaped(c: CaptureData, events: byte, registers: byte, sampleBytes: u32)
    ensures HeaderShaped(HeaderOf(c, events, registers, sampleBytes))
  {
    hide Pack16, Pack32, Pack64, PackI32;
  }

  lemma HeaderReadsBack(c: CaptureData, events: byte, registers: byte, sampleBytes: u32)
    ensures var h := HeaderOf(c, events, registers, sampleBytes);
            HeaderShaped(h) && ReadHeader(h, c.registers, c.events, c.samples) == c
  {
    HeaderOfShaped(c, events, registers, sampleBytes);
    Words();
    hide HeaderShaped, Pack16, Pack32, Pack64, PackI32, Unpack16, Unpack32, Unpack64, UnpackI32;
  }

  lemma IdentityWritesBack(f: seq<seq<byte>>, c: CaptureData)
    requires IdentityShaped(f) && Unpack16(f[0]) == SCHEMA_VERSION && Unpack16(f[1]) == FIXED_HEADER_LENGTH
    requires c.requestId == f[2] && c.scheduleId == f[3] && c.captureId == f[4] && c.bootId == f[5]
    requires c.deviceId == f[6] && c.profile == f[7]
    ensures IdentityFields(c) == f
  {
    hide Pack16, Unpack16;
    Word16(0, f[0]);
    Word16(0, f[1]);
  }

  lemma Single(s: seq<byte>)
    requires |s| == 1
    ensures [s[0]] == s
  {
  }

  lemma ShapeWritesBack(f: seq<seq<byte>>, c: CaptureData)
    requires ShapeShaped(f)
    requires c.configCrc == Unpack32(f[0]) && c.captureSequence == Unpack32(f[1]) && c.sampleInterval == Unpack16(f[2])
    requires c.burstPeriod == Unpack16(f[3]) && c.sampleCount == Unpack16(f[4]) && c.pretriggerCount == Unpack16(f[5])
    requires c.adcBits == f[6][0] && c.sampleEncoding == f[7][0] && c.vrefMv == Unpack16(f[8])
    ensures ShapeFields(c) == f
  {
    hide Pack16, Pack32, Unpack16, Unpack32;
    Word32(0, f[0]);
    Word32(0, f[1]);
    Word16(0, f[2]);
    Word16(0, f[3]);
    Word16(0, f[4]);
    Word16(0, f[5]);
    Single(f[6]);
    Single(f[7]);
    Word16(0, f[8]);
  }

  lemma TimingWritesBack(f: seq<seq<byte>>, c: CaptureData)
    requires TimingShaped(f)
    requires c.smclkNominal == Unpack32(f[0]) && c.smclkCalibrated == Unpack32(f[1]) && c.frameStart == Unpack64(f[2])
    requires c.triggerOffset == Unpack32(f[3]) && c.adcHoldOffset == UnpackI32(f[4]) && c.adcApertureNs == Unpack32(f[5])
    requires c.triggerToOutputNs == Unpack32(f[6]) && c.calibrationVersion == Unpack32(f[7])
    requires c.qualityFlags == Unpack32(f[8])
    ensures TimingFields(c) == f
  {
    hide Pack32, Pack64, PackI32, Unpack32, Unpack64, UnpackI32;
    Word32(0, f[0]);
    Word32(0, f[1]);
    Word64(0, f[2]);
    Word32(0, f[3]);
    WordI32(0, f[4]);
    Word32(0, f[5]);
    Word32(0, f[6]);
    Word32(0, f[7]);
    Word32(0, f[8]);
  }

  lemma StatusWritesBack(f: seq<seq<byte>>, c: CaptureData)
    requires StatusShaped(f) && f[5] == [0, 0, 0]
    requires c.devStat == f[0][0] && c.out3Level == f[1][0] && c.out4Level == f[2][0]
    ensures StatusFields(c, f[3][0], f[4][0], Unpack32(f[6])) == f
  {
    hide Pack32, Unpack32;
    Single(f[0]);
    Single(f[1]);
    Single(f[2]);
    Single(f[3]);
    Single(f[4]);
    Word32(0, f[6]);
  }

  /** A header that reads as version 1 with zero padding is written back byte for byte. */
  lemma HeaderWritesBack(h: Header, registers: seq<RegisterPair>, events: seq<CaptureEvent>, samples: seq<u16>)
    requires HeaderShaped(h) && h.status[5] == [0, 0, 0]
    requires Unpack16(h.identity[0]) == SCHEMA_VERSION && Unpack16(h.identity[1]) == FIXED_HEADER_LENGTH
    ensures HeaderOf(ReadHeader(h, registers, events, samples), h.status[3][0], h.status[4][0], Unpack32(h.status[6])) == h
  {
    hide Pack16, Pack32, Pack64, PackI32, Unpack16, Unpack32, Unpack64, UnpackI32, IdentityFields, ShapeFields,
      TimingFields, StatusFields;
    var c := ReadHeader(h, registers, events, samples);
    IdentityWritesBack(h.identity, c);
    ShapeWritesBack(h.shape, c);
    TimingWritesBack(h.timing, c);
    StatusWritesBack(h.status, c);
  }

  lemma GroupSums()
    ensures Sum(IDENTITY_WIDTHS) == 116 && Sum(SHAPE_WIDTHS) == 20
    ensures Sum(TIMING_WIDTHS) == 40 && Sum(STATUS_WIDTHS) == 12
  {
    hide *;
    IdentitySum();
    ShapeSum();
    TimingSum();
    StatusSum();
  }

  lemma IdentitySum()
    ensures Sum(IDENTITY_WIDTHS) == 116
  {
  }

  lemma ShapeSum()
    ensures Sum(SHAPE_WIDTHS) == 20
  {
  }

  lemma TimingSum()
    ensures Sum(TIMING_WIDTHS) == 40
  {
  }

  lemma StatusSum()
    ensures Sum(STATUS_WIDTHS) == 12
  {
  }

  // ---------------------------------------------------------------- the lists

  function PairField(p: RegisterPair): (s: seq<byte>)
    ensures |s| == 2
  {
    [p.address, p.value]
  }

  function PairOf(s: seq<byte>): RegisterPair
    requires |s| == 2
  {
    RegisterPair(s[0], s[1])
  }

  function EventField(e: CaptureEvent): (s: seq<byte>)
    ensures |s| == 16
  {
    [e.channel, e.edge, e.captureMethod, e.levelAfter] + PackI32(e.sampleIndex) + Pack16(e.subsampleTick) +
    Pack16(e.uncertaintyTicks) + Pack32(e.frameOffsetTicks)
  }

  function EventOf(s: seq<byte>): CaptureEvent
    requires |s| == 16
  {
    CaptureEvent(s[0], s[1], s[2], s[3], UnpackI32(s[4..8]), Unpack16(s[8..10]), Unpack16(s[10..12]), Unpack32(s[12..16]))
  }

  function PairFields(ps: seq<RegisterPair>): seq<seq<byte>> {
    seq(|ps|, i requires 0 <= i < |ps| => PairField(ps[i]))
  }

  function EventFields(es: seq<CaptureEvent>): seq<seq<byte>> {
    seq(|es|, i requires 0 <= i < |es| => EventField(es[i]))
  }

  function SampleFields(samples: seq<u16>): seq<seq<byte>> {
    seq(|samples|, i requires 0 <= i < |samples| => Pack16(samples[i]))
  }

  function PairsOf(fields: seq<seq<byte>>): seq<RegisterPair>
    requires forall i :: 0 <= i < |fields| ==> |fields[i]| == 2
  {
    seq(|fields|, i requires 0 <= i < |fields| => PairOf(fields[i]))
  }

  function EventsOf(fields: seq<seq<byte>>): seq<CaptureEvent>
    requires forall i :: 0 <= i < |fields| ==> |fields[i]| == 16
  {
    seq(|fields|, i requires 0 <= i < |fields| => EventOf(fields[i]))
  }

  function SamplesOf(fields: seq<seq<byte>>): seq<u16>
    requires forall i :: 0 <= i < |fields| ==> |fields[i]| == 2
  {
    seq(|fields|, i requires 0 <= i < |fields| => Unpack16(fields[i]))
  }

  lemma EventReadsBack(e: CaptureEvent)
    ensures EventOf(EventField(e)) == e
  {
    var a, b, c, d := PackI32(e.sampleIndex), Pack16(e.subsampleTick), Pack16(e.uncertaintyTicks), Pack32(e.frameOffsetTicks);
    Words();
    hide Pack16, Pack32, PackI32, Unpack16, Unpack32, UnpackI32;
    var s := EventField(e);
    assert s[4..8] == a && s[8..10] == b && s[10..12] == c && s[12..16] == d;
  }

  lemma EventWritesBack(s: seq<byte>)
    requires |s| == 16
    ensures EventField(EventOf(s)) == s
  {
    Words();
    hide Pack16, Pack32, PackI32, Unpack16, Unpack32, UnpackI32;
    assert s == [s[0], s[1], s[2], s[3]] + s[4..8] + s[8..10] + s[10..12] + s[12..16];
  }

  lemma PairsInvert(ps: seq<RegisterPair>, fields: seq<seq<byte>>)
    ensures PairsOf(PairFields(ps)) == ps
    ensures (forall i :: 0 <= i < |fields| ==> |fields[i]| == 2) ==> PairFields(PairsOf(fields)) == fields
  {
    if forall i :: 0 <= i < |fields| ==> |fields[i]| == 2 {
      forall i | 0 <= i < |fields| ensures PairField(PairOf(fields[i])) == fields[i] {
      }
    }
  }

  lemma EventsInvert(es: seq<CaptureEvent>, fields: seq<seq<byte>>)
    ensures EventsOf(EventFields(es)) == es
    ensures (forall i :: 0 <= i < |fields| ==> |fields[i]| == 16) ==> EventFields(EventsOf(fields)) == fields
  {
    forall i | 0 <= i < |es| ensures EventOf(EventField(es[i])) == es[i] {
      EventReadsBack(es[i]);
    }
    forall i | 0 <= i < |fields| && |fields[i]| == 16 ensures EventField(EventOf(fields[i])) == fields[i] {
      EventWritesBack(fields[i]);
    }
    hide EventField, EventOf;
  }

  lemma SamplesInvert(samples: seq<u16>, fields: seq<seq<byte>>)
    ensures SamplesOf(SampleFields(samples)) == samples
    ensures (forall i :: 0 <= i < |fields| ==> |fields[i]| == 2) ==> SampleFields(SamplesOf(fields)) == fields
  {
    Words();
    hide Pack16, Unpack16;
  }

  // ---------------------------------------------------------------- the payload

  function HeaderBytes(h: Header): seq<byte> {
    Join(h.identity) + Join(h.shape) + Join(h.timing) + Join(h.status)
  }

  /** Everything but the samples, which the firmware sends from another buffer. */
  function Metadata(c: CaptureData): seq<byte>
    requires |c.events| < 0x100 && |c.registers| < 0x100 && |c.samples| < 0x1_0000
  {
    HeaderBytes(HeaderOf(c, |c.events|, |c.registers|, 2 * |c.samples|)) +
    Join(PairFields(c.registers)) + Join(EventFields(c.events))
  }

  function SampleBytes(samples: seq<u16>): seq<byte> {
    Join(SampleFields(samples))
  }

  /** encode_capture_data; None is the ValueError. */
  function Encode(c: CaptureData): Option<seq<byte>> {
    if !Valid(c) then None else Some(Metadata(c) + SampleBytes(c.samples))
  }

  /** decode_capture_data; None is the ValueError. */
  function Decode(data: seq<byte>): Option<CaptureData> {
    if |data| < FIXED_HEADER_LENGTH then None
    else
      var h := CutHeader(data);
      if Unpack16(h.identity[0]) != SCHEMA_VERSION || Unpack16(h.identity[1]) != FIXED_HEADER_LENGTH ||
         h.status[5] != [0, 0, 0] then None
      else
        var events: nat, registers: nat := h.status[3][0], h.status[4][0];
        var bytes: nat, count: nat := Unpack32(h.status[6]), Unpack16(h.shape[4]);
        var variable := FIXED_HEADER_LENGTH + registers * 2;
        if |data| != variable + events * 16 + bytes || bytes != count * 2 then None
        else
          var c := ReadHeader(h, PairsOf(CutRows(data, FIXED_HEADER_LENGTH, 2, registers)),
                              EventsOf(CutRows(data, variable, 16, events)),
                              SamplesOf(CutRows(data, variable + events * 16, 2, count)));
          if Valid(c) then Some(c) else None
  }

  function CutHeader(data: seq<byte>): (h: Header)
    requires |data| >= FIXED_HEADER_LENGTH
    ensures HeaderShaped(h)
  {
    GroupSums();
    GroupsShaped(data);
    Header(Cut(data, IDENTITY_WIDTHS), Cut(data[116..], SHAPE_WIDTHS), Cut(data[136..], TIMING_WIDTHS),
           Cut(data[176..], STATUS_WIDTHS))
  }

  lemma GroupsShaped(data: seq<byte>)
    requires |data| >= FIXED_HEADER_LENGTH
    ensures Sum(IDENTITY_WIDTHS) <= |data| && Sum(SHAPE_WIDTHS) <= |data[116..]|
    ensures Sum(TIMING_WIDTHS) <= |data[136..]| && Sum(STATUS_WIDTHS) <= |data[176..]|
    ensures IdentityShaped(Cut(data, IDENTITY_WIDTHS)) && ShapeShaped(Cut(data[116..], SHAPE_WIDTHS))
    ensures TimingShaped(Cut(data[136..], TIMING_WIDTHS)) && StatusShaped(Cut(data[176..], STATUS_WIDTHS))
  {
    hide Cut, Sum;
    GroupSums();
    CutWidths(data, IDENTITY_WIDTHS);
    CutWidths(data[116..], SHAPE_WIDTHS);
    CutWidths(data[136..], TIMING_WIDTHS);
    CutWidths(data[176..], STATUS_WIDTHS);
  }

  function CutRows(data: seq<byte>, offset: nat, width: nat, n: nat): (rows: seq<seq<byte>>)
    requires offset + n * width <= |data|
    ensures |rows| == n && forall i :: 0 <= i < n ==> |rows[i]| == width
  {
    SumRepeat(width, n);
    CutWidths(data[offset..], Repeat(width, n));
    Cut(data[offset..], Repeat(width, n))
  }

  // ---------------------------------------------------------------- round trips

  lemma {:induction false} RowsJoin(rows: seq<seq<byte>>, width: nat, before: seq<byte>, after: seq<byte>)
    requires forall i :: 0 <= i < |rows| ==> |rows[i]| == width
    ensures |Join(rows)| == |rows| * width
    ensures CutRows(before + Join(rows) + after, |before|, width, |rows|) == rows
  {
    CutJoin(rows, after);
    SumRepeat(width, |rows|);
    assert Widths(rows) == Repeat(width, |rows|);
    assert (before + Join(rows) + after)[|before|..] == Join(rows) + after;
  }

  lemma RowsOfCut(data: seq<byte>, offset: nat, width: nat, n: nat)
    requires offset + n * width <= |data|
    ensures Join(CutRows(data, offset, width, n)) == data[offset..offset + n * width]
  {
    SumRepeat(width, n);
    JoinCut(data[offset..], Repeat(width, n));
  }

  lemma GroupWidths(h: Header)
    requires HeaderShaped(h)
    ensures Widths(h.identity) == IDENTITY_WIDTHS && Widths(h.shape) == SHAPE_WIDTHS
    ensures Widths(h.timing) == TIMING_WIDTHS && Widths(h.status) == STATUS_WIDTHS
  {
  }

  lemma FourParts(i: seq<byte>, s: seq<byte>, t: seq<byte>, u: seq<byte>, rest: seq<byte>)
    requires |i| == 116 && |s| == 20 && |t| == 40 && |u| == 12
    ensures var data := (i + s + t + u) + rest;
            |i + s + t + u| == 188 && data == i + (s + t + u + rest) && data[116..] == s + (t + u + rest) &&
            data[136..] == t + (u + rest) && data[176..] == u + rest
  {
  }

  lemma FourSlices(data: seq<byte>)
    requires |data| >= 188
    ensures data[..116] + data[116..][..20] + data[136..][..40] + data[176..][..12] == data[..188]
  {
  }

  lemma CutHeaderBytes(h: Header, rest: seq<byte>)
    requires HeaderShaped(h)
    ensures |HeaderBytes(h)| == FIXED_HEADER_LENGTH && CutHeader(HeaderBytes(h) + rest) == h
  {
    hide Cut, Join, Sum, Widths, HeaderShaped;
    var (i, s, t, u) := (Join(h.identity), Join(h.shape), Join(h.timing), Join(h.status));
    GroupSums();
    GroupWidths(h);
    CutJoin(h.identity, s + t + u + rest);
    CutJoin(h.shape, t + u + rest);
    CutJoin(h.timing, u + rest);
    CutJoin(h.status, rest);
    FourParts(i, s, t, u, rest);
  }

  lemma HeaderBytesOfCut(data: seq<byte>)
    requires |data| >= FIXED_HEADER_LENGTH
    ensures HeaderBytes(CutHeader(data)) == data[..FIXED_HEADER_LENGTH]
  {
    hide Cut, Join, Sum, HeaderShaped;
    GroupSums();
    JoinCut(data, IDENTITY_WIDTHS);
    JoinCut(data[116..], SHAPE_WIDTHS);
    JoinCut(data[136..], TIMING_WIDTHS);
    JoinCut(data[176..], STATUS_WIDTHS);
    FourSlices(data);
  }

  // ---------------------------------------------------------------- the whole payload

  lemma ListBytes(c: CaptureData)
    ensures |Join(PairFields(c.registers))| == 2 * |c.registers|
    ensures |Join(EventFields(c.events))| == 16 * |c.events|
    ensures |SampleBytes(c.samples)| == 2 * |c.samples|
  {
    RowsJoin(PairFields(c.registers), 2, [], []);
    RowsJoin(EventFields(c.events), 16, [], []);
    RowsJoin(SampleFields(c.samples), 2, [], []);
    hide Join, CutRows;
  }

  /** Whatever is encoded decodes to the same capture. */
  lemma DecodeEncode(c: CaptureData)
    requires Valid(c)
    ensures Decode(Encode(c).value) == Some(c)
  {
    DecodeWritten(c);
    hide Decode, Metadata, SampleBytes;
  }

  /** A capture laid out on the wire is accepted exactly when it is valid, and then unchanged. */
  lemma DecodeWritten(c: CaptureData)
    requires c.sampleCount == |c.samples| && |c.events| < 0x100 && |c.registers| < 0x100
    ensures Decode(Metadata(c) + SampleBytes(c.samples)) == if Valid(c) then Some(c) else None
  {
    var h := HeaderOf(c, |c.events|, |c.registers|, 2 * |c.samples|);
    var (hb, pb, eb, sb) := (HeaderBytes(h), Join(PairFields(c.registers)), Join(EventFields(c.events)), SampleBytes(c.samples));
    var data := hb + pb + eb + sb;
    HeaderReadsBack(c, |c.events|, |c.registers|, 2 * |c.samples|);
    ListBytes(c);
    FourJoins(hb, pb, eb, sb);
    CutHeaderBytes(h, pb + eb + sb);
    RowsJoin(PairFields(c.registers), 2, hb, eb + sb);
    RowsJoin(EventFields(c.events), 16, hb + pb, sb);
    RowsJoin(SampleFields(c.samples), 2, hb + pb + eb, []);
    PairsInvert(c.registers, []);
    EventsInvert(c.events, []);
    SamplesInvert(c.samples, []);
    HeaderCounts(c, |c.events|, |c.registers|, 2 * |c.samples|);
    hide Join, CutRows, CutHeader, HeaderBytes, HeaderOf, ReadHeader, PairFields, EventFields, SampleFields, PairsOf,
      EventsOf, SamplesOf, HeaderShaped, Unpack16, Unpack32, Valid;
  }

  lemma FourJoins(a: seq<byte>, b: seq<byte>, c: seq<byte>, d: seq<byte>)
    ensures a + b + c + d == a + (b + c + d) == (a + b + (c + d)) == ((a + b) + c + d) == ((a + b + c) + d + [])
  {
  }

  /** The counts the decoder steers by. */
  lemma HeaderCounts(c: CaptureData, events: byte, registers: byte, bytes: u32)
    ensures var h := HeaderOf(c, events, registers, bytes);
            HeaderShaped(h) && Unpack16(h.identity[0]) == SCHEMA_VERSION &&
            Unpack16(h.identity[1]) == FIXED_HEADER_LENGTH && h.status[5] == [0, 0, 0] &&
            h.status[3][0] == events && h.status[4][0] == registers && Unpack32(h.status[6]) == bytes &&
            Unpack16(h.shape[4]) == c.sampleCount
  {
    HeaderOfShaped(c, events, registers, bytes);
    Words();
    hide HeaderShaped, Pack16, Pack32, Pack64, PackI32, Unpack16, Unpack32;
  }

  /** The header of a decoded capture is the header it was decoded from. */
  lemma HeaderOfDecoded(h: Header, c: CaptureData, events: nat, registers: nat)
    requires HeaderShaped(h) && h.status[5] == [0, 0, 0]
    requires Unpack16(h.identity[0]) == SCHEMA_VERSION && Unpack16(h.identity[1]) == FIXED_HEADER_LENGTH
    requires c == ReadHeader(h, c.registers, c.events, c.samples) && Valid(c)
    requires events == h.status[3][0] == |c.events| && registers == h.status[4][0] == |c.registers|
    requires Unpack32(h.status[6]) == 2 * |c.samples|
    ensures HeaderOf(c, |c.events|, |c.registers|, 2 * |c.samples|) == h
  {
    HeaderWritesBack(h, c.registers, c.events, c.samples);
    hide *;
  }

  /** Only one byte string decodes to a capture: what was decoded is encoded back byte for byte. */
  lemma EncodeDecode(data: seq<byte>)
    ensures Decode(data).Some? ==> Valid(Decode(data).value) && Encode(Decode(data).value) == Some(data)
  {
    hide CutRows, CutHeader, Unpack16, Unpack32, Join, ReadHeader, PairsOf, EventsOf, SamplesOf;
    if Decode(data).Some? {
      var c := Decode(data).value;
      var h := CutHeader(data);
      var events: nat, registers: nat, count: nat := h.status[3][0], h.status[4][0], Unpack16(h.shape[4]);
      var variable := FIXED_HEADER_LENGTH + registers * 2;
      var (ps, es, ss) := (CutRows(data, FIXED_HEADER_LENGTH, 2, registers), CutRows(data, variable, 16, events),
                           CutRows(data, variable + events * 16, 2, count));
      assert c == ReadHeader(h, PairsOf(ps), EventsOf(es), SamplesOf(ss));
      ReadHeaderLists(h, PairsOf(ps), EventsOf(es), SamplesOf(ss));
      PairsInvert([], ps);
      EventsInvert([], es);
      SamplesInvert([], ss);
      ListCounts(ps, es, ss);
      HeaderOfDecoded(h, c, events, registers);
      HeaderBytesOfCut(data);
      RowsOfCut(data, FIXED_HEADER_LENGTH, 2, registers);
      RowsOfCut(data, variable, 16, events);
      RowsOfCut(data, variable + events * 16, 2, count);
      FourPieces(data, FIXED_HEADER_LENGTH, variable, variable + events * 16);
      hide HeaderOf, HeaderBytes, PairFields, EventFields, SampleFields;
      assert data[variable + events * 16..variable + events * 16 + count * 2] == data[variable + events * 16..];
    }
  }

  lemma ReadHeaderLists(h: Header, registers: seq<RegisterPair>, events: seq<CaptureEvent>, samples: seq<u16>)
    requires HeaderShaped(h)
    ensures var c := ReadHeader(h, registers, events, samples);
            c.registers == registers && c.events == events && c.samples == samples
  {
  }

  lemma ListCounts(ps: seq<seq<byte>>, es: seq<seq<byte>>, ss: seq<seq<byte>>)
    requires forall i :: 0 <= i < |ps| ==> |ps[i]| == 2
    requires forall i :: 0 <= i < |es| ==> |es[i]| == 16
    requires forall i :: 0 <= i < |ss| ==> |ss[i]| == 2
    ensures |PairsOf(ps)| == |ps| && |EventsOf(es)| == |es| && |SamplesOf(ss)| == |ss|
  {
  }

  lemma FourPieces(data: seq<byte>, i: nat, j: nat, k: nat)
    requires i <= j <= k <= |data|
    ensures data == data[..i] + data[i..j] + data[j..k] + data[k..]
  {
  }

  // ---------------------------------------------------------------- the decoder's cursor

  method TakeHeader(data: seq<byte>) returns (h: Header, offset: nat)
    requires |data| >= FIXED_HEADER_LENGTH
    ensures h == CutHeader(data) && offset == FIXED_HEADER_LENGTH
  {
    hide Sum, Cut;
    GroupsShaped(data);
    GroupSums();
    assert data[0..] == data;
    var identity, shape, timing, status;
    identity, offset := TakeFields(data, 0, IDENTITY_WIDTHS);
    shape, offset := TakeFields(data, offset, SHAPE_WIDTHS);
    timing, offset := TakeFields(data, offset, TIMING_WIDTHS);
    status, offset := TakeFields(data, offset, STATUS_WIDTHS);
    return Header(identity, shape, timing, status), offset;
  }

  method TakeRows(data: seq<byte>, start: nat, width: nat, n: nat) returns (rows: seq<seq<byte>>, offset: nat)
    requires start + n * width <= |data|
    ensures rows == CutRows(data, start, width, n) && offset == start + n * width
  {
    SumRepeat(width, n);
    rows, offset := TakeFields(data, start, Repeat(width, n));
  }

  /** decode_capture_data as it runs: fields are taken one after another from an offset. */
  method DecodePayload(data: seq<byte>) returns (r: Option<CaptureData>)
    ensures r == Decode(data)
  {
    if |data| < FIXED_HEADER_LENGTH {
      return None;
    }
    hide CutHeader, CutRows, Valid, ReadHeader, Unpack16, Unpack32, PairsOf, EventsOf, SamplesOf;
    var h, offset := TakeHeader(data);
    if Unpack16(h.identity[0]) != SCHEMA_VERSION || Unpack16(h.identity[1]) != FIXED_HEADER_LENGTH ||
       h.status[5] != [0, 0, 0] {
      return None;
    }
    var events: nat, registers: nat := h.status[3][0], h.status[4][0];
    var bytes: nat, count: nat := Unpack32(h.status[6]), Unpack16(h.shape[4]);
    if |data| != FIXED_HEADER_LENGTH + registers * 2 + events * 16 + bytes || bytes != count * 2 {
      return None;
    }
    var pairRows, eventRows, sampleRows;
    pairRows, offset := TakeRows(data, offset, 2, registers);
    eventRows, offset := TakeRows(data, offset, 16, events);
    sampleRows, offset := TakeRows(data, offset, 2, count);
    var c := ReadHeader(h, PairsOf(pairRows), EventsOf(eventRows), SamplesOf(sampleRows));
    return if Valid(c) then Some(c) else None;
  }
}
