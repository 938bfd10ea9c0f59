/** From the ADC buffer to the archive: the pieces put together. */
module EndToEnd {
  import opened Bytes
  import opened Delivery
  import opened BridgeMessages
  import D = CaptureStream
  import M = MainLoop
  import H = HostStream
  import F = Frame
  import CD = CaptureData
  import Sys = DeliverySystem
  import A = Accounting
  import Store = CoreStore
  import E = ExactlyOnce
  import Hist = History
  import Crc32

  /** A frame the firmware completed, and what the host finds in its bytes: that capture, or nothing
      when its descriptor is not one a capture can have. */
  lemma SentFrameRead(sha: D.Sha, d: D.Descriptor, w: M.Waveform)
    requires D.Fits(d)
    ensures CaptureIn(D.WireBytes(sha, d, w)) ==
              if D.DescriptorValid(d) then Some(D.CaptureOf(sha, d, w)) else None
  {
    hide D.WireBytes, F.DecodeFrame, CD.Decode, F.Permitted, D.MetadataSegment, CD.SampleBytes, F.EncodeFrame,
      D.DescriptorValid, D.CaptureOf;
    D.WaveformDelivered(sha, d, w);
  }

  lemma SentFrameIdentified(sha: D.Sha, d: D.Descriptor, w: M.Waveform)
    requires D.DescriptorValid(d)
    ensures var wire := D.WireBytes(sha, d, w);
            MIN_INNER <= |wire| <= MAX_INNER &&
            CaptureIn(wire) == Some(D.CaptureOf(sha, d, w)) &&
            IdentityIn(wire) == Some(Identity(d.deviceId, d.bootId, D.CaptureId(sha, d)))
  {
    hide D.WireBytes, CaptureIn, D.MetadataSegment, CD.SampleBytes, F.EncodeFrame;
    SentFrameRead(sha, d, w);
    D.SegmentsAreFrame(sha, d, w);
    D.SegmentLengths(sha, d, w);
    F.EncodedReads(D.FrameOf(sha, d, w));
  }

  /** Such a frame can always be spooled and delivered, wherever on the serial stream it was read. */
  lemma SentFrameDeliverable(sha: D.Sha, d: D.Descriptor, w: M.Waveform, connection: nat, record: nat, source: Source)
    requires D.DescriptorValid(d) && SourceCovers(source, D.WireBytes(sha, d, w))
    ensures Deliverable(HostCodec(sha), Parcel(connection, record, source, D.WireBytes(sha, d, w)))
  {
    hide D.WireBytes, CaptureIn, D.CaptureOf, D.DescriptorValid, IdentityIn, SourceCovers;
    SentFrameIdentified(sha, d, w);
  }

  /** The resynchronising parser returns exactly this frame however the bytes are cut, unless a
      chunk came too late for the candidate it continues or overflowed the buffer. */
  lemma SentFrameParsed(sha: D.Sha, d: D.Descriptor, w: M.Waveform, chunks: seq<H.Chunk>)
    requires D.Fits(d) && H.Received(chunks) == D.WireBytes(sha, d, w)
    ensures H.RunPieces(H.FRESH, chunks) == [H.Whole(D.FrameOf(sha, d, w))] <==> H.Undisturbed(H.FRESH, chunks)
  {
    hide D.WireBytes, H.Received, H.Undisturbed, H.RunPieces, F.Permitted, F.EncodeFrame, H.RunParser, H.Tally, H.Frames;
    var f := D.FrameOf(sha, d, w);
    var pieces := [H.Whole(f)];
    D.SegmentsAreFrame(sha, d, w);
    D.FramePermitted(sha, d, w);
    FlattenOne(f);
    H.CleanStreamRecovered(pieces, chunks);
  }

  lemma FlattenOne(f: F.Frame)
    requires |f.payload| <= F.HOST_MAX_PAYLOAD
    ensures H.Flatten([H.Whole(f)]) == F.EncodeFrame(f)
  {
    hide F.EncodeFrame;
    assert [H.Whole(f)][1..] == [];
  }

  /** These bytes are a frame that the firmware completed. */
  ghost predicate FromDevice(m: M.Loop, frame: seq<byte>) {
    exists x :: x in m.delivered && x.start <= x.end <= |m.out| && M.WireOf(m, x) == frame
  }

  /** The link from device to bridge: what was pending at first and what the bridge read since are
      frames the firmware completed, in any order and any number of times. */
  ghost predicate ReadFromDevice(m: M.Loop, s: Sys.System, actions: seq<Sys.Action>) {
    (forall p :: p in s.spool.pending ==> FromDevice(m, p.frame)) &&
    (forall a :: a in actions && a.DeviceCaptures? ==> FromDevice(m, a.frame))
  }

  /** The row holds this capture of the device, under its own identity. */
  predicate Archives(sha: D.Sha, row: Store.ArchiveRow, x: M.Delivered) {
    D.DescriptorValid(x.descriptor) && CaptureIn(row.frame) == Some(D.CaptureOf(sha, x.descriptor, x.waveform)) &&
    row.identity == Identity(x.descriptor.deviceId, x.descriptor.bootId, D.CaptureId(sha, x.descriptor))
  }

  /** From ADC buffer to archive: whatever happens to the device's main loop, and whatever bridge and
      core go through, every row of the archive decodes to the descriptor and the samples of a
      capture that the device held while it sent that frame. */
  lemma ArchivedWaveform(
    w: Sys.World, s: Sys.System, actions: seq<Sys.Action>, sha: D.Sha, l: M.Loop, steps: seq<M.Action>,
    row: Store.ArchiveRow)
    requires w.codec == HostCodec(sha) && Sys.Initial(w, s) && Sys.Run(w, s, actions).Some?
    requires M.Initial(l) && M.HarmlessRun(sha, l, steps) && ReadFromDevice(M.Run(sha, l, steps), s, actions)
    requires row in Sys.Run(w, s, actions).value.core.archive
    ensures exists x :: x in M.Run(sha, l, steps).delivered && Archives(sha, row, x)
  {
    hide *;
    var t := Sys.Run(w, s, actions).value;
    var m := M.Run(sha, l, steps);
    var e := ArchivedEntry(w, s, actions, row);
    Hist.ResolvedOrigin(w, s, actions, e);
    var x := DeviceFrame(m, s, actions, e.frame);
    var i := IndexOf(m.delivered, x);
    M.CompletedFramesAreWhole(sha, l, steps, i);
    HostIdentity(sha, row.frame);
    RowArchives(sha, row, x);
  }

  lemma HostIdentity(sha: D.Sha, frame: seq<byte>)
    ensures HostCodec(sha).identity(frame) == IdentityIn(frame)
  {
  }

  lemma IndexOf(delivered: seq<M.Delivered>, x: M.Delivered) returns (i: nat)
    requires x in delivered
    ensures i < |delivered| && delivered[i] == x
  {
    i :| 0 <= i < |delivered| && delivered[i] == x;
  }

  lemma DeviceFrame(m: M.Loop, s: Sys.System, actions: seq<Sys.Action>, frame: seq<byte>) returns (x: M.Delivered)
    requires ReadFromDevice(m, s, actions)
    requires (exists p :: p in s.spool.pending && p.frame == frame) || Hist.ReadIn(actions, frame)
    ensures x in m.delivered && x.start <= x.end <= |m.out| && M.WireOf(m, x) == frame
  {
    assert FromDevice(m, frame);
    x :| x in m.delivered && x.start <= x.end <= |m.out| && M.WireOf(m, x) == frame;
  }

  lemma RowArchives(sha: D.Sha, row: Store.ArchiveRow, x: M.Delivered)
    requires D.Fits(x.descriptor) && row.frame == D.WireBytes(sha, x.descriptor, x.waveform)
    requires IdentityIn(row.frame) == Some(row.identity)
    ensures Archives(sha, row, x)
  {
    hide D.WireBytes, CaptureIn, D.DescriptorValid;
    SentFrameRead(sha, x.descriptor, x.waveform);
  }

  /** An archived row is a resolved capture, keyed by the identity in its own bytes. */
  lemma ArchivedEntry(w: Sys.World, s: Sys.System, actions: seq<Sys.Action>, row: Store.ArchiveRow) returns (e: A.Entry)
    requires Sys.Initial(w, s) && Sys.Run(w, s, actions).Some?
    requires row in Sys.Run(w, s, actions).value.core.archive
    ensures e in Sys.Run(w, s, actions).value.log && e.frame == row.frame
    ensures w.codec.identity(row.frame) == Some(row.identity)
  {
    hide Sys.Run, Sys.Initial, E.Forgets, E.TombstoneHonest, E.DistinctRows;
    E.ArchivedAtMostOnce(w, s, actions);
    e :| e in Sys.Run(w, s, actions).value.log && e.frame == row.frame;
  }
}
