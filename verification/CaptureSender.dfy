/** The segment encoder and the transmitter as the firmware keeps them: arrays filled with a
    running offset, and a state field moved by start results and completions. */
module CaptureSender {
  import opened Bytes
  import opened Delivery
  import opened Packing
  import opened CaptureStream
  import opened MainLoop
  import CD = CaptureData
  import F = Frame
  import Crc32

  class SegmentStream {
    const sha: Sha
    const frameHeader: array<byte>
    const metadata: array<byte>
    const frameCrc: array<byte>
    var metadataLength: nat
    var samples: array<u16>
    var phase: nat
    var active: bool

    ghost predicate Valid()
      reads this
    {
      frameHeader.Length == 16 && metadata.Length == METADATA_MAX && frameCrc.Length == 4 &&
      frameHeader != metadata && metadata != frameCrc && frameCrc != frameHeader &&
      metadataLength <= METADATA_MAX && samples.Length == SAMPLE_COUNT
    }

    function Held(): Stream
      requires metadataLength <= metadata.Length
      reads this, frameHeader, metadata, frameCrc
    {
      Stream(frameHeader[..], metadata[..metadataLength], frameCrc[..], phase, active)
    }

    constructor (sha: Sha, samples: array<u16>)
      requires samples.Length == SAMPLE_COUNT
      ensures Valid() && this.sha == sha && this.samples == samples && !active
      ensures fresh(frameHeader) && fresh(metadata) && fresh(frameCrc)
    {
      this.sha, this.samples := sha, samples;
      frameHeader, metadata, frameCrc := new byte[16], new byte[METADATA_MAX], new byte[4];
      metadataLength, phase, active := 0, 0, false;
    }

    /** Write one field at the running offset. */
    method Append(offset: nat, field: seq<byte>) returns (next: nat)
      requires offset + |field| <= metadata.Length
      modifies metadata
      ensures next == offset + |field| && metadata[..next] == old(metadata[..offset]) + field
    {
      for i := 0 to |field|
        invariant metadata[..offset + i] == old(metadata[..offset]) + field[..i]
      {
        metadata[offset + i] := field[i];
      }
      next := offset + |field|;
    }

    method AppendAll(offset: nat, fields: seq<seq<byte>>) returns (next: nat)
      requires offset + |Join(fields)| <= metadata.Length
      modifies metadata
      ensures next == offset + |Join(fields)| && metadata[..next] == old(metadata[..offset]) + Join(fields)
    {
      next := offset;
      for i := 0 to |fields|
        invariant offset <= next && next + |Join(fields[i..])| == offset + |Join(fields)| <= metadata.Length
        invariant metadata[..next] + Join(fields[i..]) == old(metadata[..offset]) + Join(fields)
      {
        ghost var before, start := metadata[..next], old(metadata[..offset]);
        assert fields[i..][1..] == fields[i + 1..] && fields[i..][0] == fields[i];
        assert Join(fields[i..]) == fields[i] + Join(fields[i + 1..]);
        next := Append(next, fields[i]);
        assert before + (fields[i] + Join(fields[i + 1..])) == before + fields[i] + Join(fields[i + 1..]);
      }
      assert fields[|fields|..] == [];
    }

    /** Fixed header, register pairs, then as many events as were captured. */
    method BuildMetadata(d: Descriptor)
      requires Valid() && Fits(d)
      modifies this`metadataLength, metadata
      ensures Valid() && metadata[..metadataLength] == MetadataSegment(sha, d, samples[..])
    {
      hide Join, Pack16, Pack32, PackI32, Pack64;
      ghost var c := CaptureOf(sha, d, samples[..]);
      ghost var h := CD.HeaderOf(c, |c.events|, |c.registers|, 2 * |c.samples|);
      SegmentPieces(sha, d, samples[..]);
      var ticks := TriggerTicks(d);
      var offset := AppendAll(0, [Pack16(1), Pack16(188), d.requestId, d.scheduleId, CaptureId(sha, d), d.bootId,
                                  d.deviceId, d.profile]);
      offset := AppendAll(offset, [Pack32(d.configCrc), Pack32(d.captureSequence), Pack16(d.sampleInterval),
                                   Pack16(d.burstPeriod), Pack16(SAMPLE_COUNT), Pack16(d.pretrigger), [12], [1],
                                   Pack16(3300)]);
      PackedNegative(ticks);
      offset := AppendAll(offset, [Pack32(24_000_000), Pack32(0), Pack64(0), Pack32(ticks), Pack32(Negated(ticks)),
                                   Pack32(1000), Pack32(0), Pack32(0), Pack32(d.qualityFlags)]);
      offset := AppendAll(offset, [[d.devStat], [d.out3Level], [d.out4Level], [|d.events|], [REGISTER_COUNT], [0, 0, 0],
                                   Pack32(SAMPLE_COUNT * 2)]);
      assert metadata[..offset] == CD.HeaderBytes(h);
      offset := AppendAll(offset, CD.PairFields(d.registers));
      offset := AppendAll(offset, CD.EventFields(d.events));
      metadataLength := offset;
    }

    method Init(d: Descriptor, waveform: array<u16>)
      requires Valid() && Fits(d) && waveform.Length == SAMPLE_COUNT
      modifies this, frameHeader, metadata, frameCrc
      ensures Valid() && samples == waveform && Held() == Build(sha, d, waveform[..])
    {
      hide F.Header, MetadataSegment, CD.SampleBytes, Crc32.Update, Le32;
      samples := waveform;
      BuildMetadata(d);
      SegmentLengths(sha, d, waveform[..]);
      Fill(frameHeader, HeaderSegment(d, metadataLength));
      ghost var header, meta := frameHeader[..], metadata[..metadataLength];
      var crc := Crc32.CrcUpdate(Crc32.ALL_ONES, frameHeader[4..16]);
      assert frameHeader[4..16] == frameHeader[..][4..];
      Crc32.UpdateBelow(Crc32.ALL_ONES, header[4..]);
      Crc32.UpdateBelow(crc, meta);
      crc := Crc32.CrcUpdate(crc, metadata[..metadataLength]);
      Crc32.UpdateBelow(crc, CD.SampleBytes(waveform[..]));
      crc := Crc32.CrcUpdate(crc, CD.SampleBytes(waveform[..]));
      Fill(frameCrc, Le32(Crc32.Finish(crc)));
      phase := 0;
      active := true;
    }

    method Fill(target: array<byte>, data: seq<byte>)
      requires target.Length == |data|
      modifies target
      ensures target[..] == data
    {
      for i := 0 to |data|
        invariant target[..i] == data[..i]
      {
        target[i] := data[i];
      }
    }

    /** The bytes at the current position; the samples are read where the DMA left them. */
    method Peek() returns (data: Option<seq<byte>>)
      requires Valid()
      ensures data == if active && phase < 4 then Some(SegmentBytes(Held(), phase, samples[..])) else None
    {
      if !active {
        return None;
      }
      if phase == 0 {
        return Some(frameHeader[..]);
      } else if phase == 1 {
        return Some(metadata[..metadataLength]);
      } else if phase == 2 {
        return Some(CD.SampleBytes(samples[..]));
      } else if phase == 3 {
        return Some(frameCrc[..]);
      }
      return None;
    }

    method Advance() returns (ok: bool)
      requires Valid()
      modifies this`phase, this`active
      ensures Valid() && (Held(), ok) == Commit(old(Held()))
    {
      if !active || phase >= 4 {
        return false;
      }
      phase := phase + 1;
      if phase == 4 {
        active := false;
      }
      return true;
    }
  }

  class CaptureTransmitter {
    const stream: SegmentStream
    var state: TxState

    constructor (stream: SegmentStream)
      ensures this.stream == stream && state == if stream.active then Ready else Idle
    {
      this.stream := stream;
      state := if stream.active then Ready else Idle;
    }

    method PeekSegment() returns (data: Option<seq<byte>>)
      requires stream.Valid()
      ensures data == if state == Ready && stream.active && stream.phase < 4
                      then Some(SegmentBytes(stream.Held(), stream.phase, stream.samples[..])) else None
    {
      if state != Ready {
        return None;
      }
      data := stream.Peek();
    }

    method StartResult(result: Started)
      modifies this
      ensures state == OnStart(old(state), result)
    {
      if state != Ready {
        return;
      }
      match result
      case SendStarted => state := InFlight;
      case SendBusy => state := Ready;
      case SendFatal => state := Failed;
    }

    /** Only a completed segment is committed. */
    method SendCompleted()
      requires stream.Valid()
      modifies this, stream`phase, stream`active
      ensures stream.Valid() && (state, stream.Held()) == OnCompleted(old(state), old(stream.Held()))
    {
      if state != InFlight {
        return;
      }
      var ok := stream.Advance();
      if !ok {
        state := Failed;
      } else if stream.active {
        state := Ready;
      } else {
        state := Complete;
      }
    }

    method Abort()
      modifies this
      ensures state == Failed
    {
      state := Failed;
    }
  }

  lemma PackedNegative(u: u32)
    ensures PackI32(Signed(Negated(u))) == Pack32(Negated(u))
  {
  }

  /** The lengths the running offset adds up to. */
  lemma SegmentPieces(sha: Sha, d: Descriptor, samples: seq<u16>)
    requires Fits(d) && |samples| == SAMPLE_COUNT
    ensures var c := CaptureOf(sha, d, samples);
            var h := CD.HeaderOf(c, |c.events|, |c.registers|, 2 * |c.samples|);
            |Join(h.identity)| == 116 && |Join(h.shape)| == 20 && |Join(h.timing)| == 40 && |Join(h.status)| == 12 &&
            |Join(CD.PairFields(d.registers))| == 20 && |Join(CD.EventFields(d.events))| == 16 * |d.events|
  {
    hide Join, Widths, Sum, CD.HeaderOf, CD.HeaderShaped, CD.PairFields, CD.EventFields;
    var c := CaptureOf(sha, d, samples);
    var h := CD.HeaderOf(c, |c.events|, |c.registers|, 2 * |c.samples|);
    CD.HeaderOfShaped(c, |c.events|, |c.registers|, 2 * |c.samples|);
    CD.GroupWidths(h);
    CD.GroupSums();
    CutJoin(h.identity, []);
    CutJoin(h.shape, []);
    CutJoin(h.timing, []);
    CutJoin(h.status, []);
    CD.ListBytes(c);
  }
}
