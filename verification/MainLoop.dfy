/** The firmware's main loop as far as it owns the waveform: who may capture or reconfigure,
    and what reaches the wire while a CAPTURE_DATA frame is being sent. */
module MainLoop {
  import opened Bytes
  import opened Delivery
  import CD = CaptureData
  import opened CaptureStream
  import F = Frame

  type Waveform = w: seq<u16> | |w| == SAMPLE_COUNT witness seq(2048, _ => 0)

  /** The stream object: three owned segments and the position; samples stay in the waveform. */
  datatype Stream = Stream(header: seq<byte>, metadata: seq<byte>, crc: seq<byte>, phase: nat, active: bool)

  datatype TxState = Idle | Ready | InFlight | Complete | Failed
  datatype Started = SendStarted | SendBusy | SendFatal

  /** What the USB engine is reading from: a segment of the stream, or the response buffer. */
  datatype Sending = Nothing | Segment(phase: nat) | Response(bytes: seq<byte>)

  /** A frame that was completed: the capture held then, and where in the output it lies, from the
      first byte of its header to the last byte of its checksum. */
  datatype Delivered = Delivered(descriptor: Descriptor, waveform: Waveform, start: nat, end: nat)

  /** The step of the loop to run next. */
  datatype Place = Session | Completion | Periodic | Arbitrate

  /** out is every byte that ever left the device, begun where in it the latest frame header lies;
      no step reads them or delivered. */
  datatype Loop = Loop(
    place: Place, pending: bool, descriptor: Descriptor, waveform: Waveform,
    started: bool, stream: Stream, tx: TxState,
    gateBusy: bool, sendComplete: bool, ready: bool, previousReady: bool, dataPending: bool,
    usb: Sending, out: seq<byte>, begun: nat, delivered: seq<Delivered>)

  /** What a command or a periodic capture leaves behind; any of it may have changed. */
  datatype Change = Change(pending: bool, descriptor: Descriptor, waveform: Waveform)

  /** A command is always answered. */
  datatype Handled = Handled(change: Change, response: seq<byte>)

  datatype Action =
    | UsbCompletes
    | SessionIs(ready: bool)
    | DataArrives
    | RunSession(ended: Change, read: nat)
    | RunCompletion
    | RunPeriodic(captured: Option<Change>)
    | RunArbitrate(
        first: bool, second: bool, result: Started, ended: Change, handled: Option<Handled>, responseStarted: bool)

  // ---------------------------------------------------------------- stream and transmitter

  function Build(sha: Sha, d: Descriptor, w: Waveform): Stream
    requires Fits(d)
  {
    SegmentLengths(sha, d, w);
    var metadata := MetadataSegment(sha, d, w);
    var header := HeaderSegment(d, |metadata|);
    Stream(header, metadata, CrcSegment(header, metadata, CD.SampleBytes(w)), 0, true)
  }

  /** The bytes a segment's pointer leads to now; the third points into the live waveform. */
  function SegmentBytes(s: Stream, phase: nat, w: Waveform): seq<byte> {
    if phase == 0 then s.header else if phase == 1 then s.metadata
    else if phase == 2 then CD.SampleBytes(w) else if phase == 3 then s.crc else []
  }

  function Commit(s: Stream): (Stream, bool) {
    if !s.active || s.phase >= 4 then (s, false)
    else (s.(phase := s.phase + 1, active := s.phase + 1 != 4), true)
  }

  function OnStart(tx: TxState, result: Started): TxState {
    if tx != Ready then tx
    else
      match result
      case SendStarted => InFlight
      case SendBusy => Ready
      case SendFatal => Failed
  }

  function OnCompleted(tx: TxState, s: Stream): (TxState, Stream) {
    if tx != InFlight then (tx, s)
    else
      var (t, ok) := Commit(s);
      (if !ok then Failed else if t.active then Ready else Complete, t)
  }

  // ---------------------------------------------------------------- interrupts

  /** The buffer the USB engine is reading. */
  function InTransit(l: Loop): seq<byte> {
    match l.usb
    case Nothing => []
    case Segment(phase) => SegmentBytes(l.stream, phase, l.waveform)
    case Response(bytes) => bytes
  }

  /** A buffer that has been read to its end has left the device. */
  function UsbCompleted(l: Loop): Loop {
    if l.usb.Nothing? then l
    else
      l.(usb := Nothing, sendComplete := true, out := l.out + InTransit(l),
         begun := if l.usb == Segment(0) then |l.out| else l.begun)
  }

  // ---------------------------------------------------------------- the steps of one pass

  /** usac_firmware_app_end_session: nothing is pending, identities are cleared. */
  function EndSession(l: Loop, ended: Change): Loop {
    l.(pending := false, descriptor := ended.descriptor)
  }

  /** Session lost: stop the transmission, some of which may have left already, before ending the
      session. */
  function SessionStep(l: Loop, ended: Change, read: nat): Loop {
    if l.ready then l.(previousReady := true, place := Completion)
    else if !l.previousReady then l.(place := Completion)
    else
      var bytes := InTransit(l);
      var stopped := l.(usb := if l.gateBusy then Nothing else l.usb, gateBusy := false, sendComplete := false,
                        out := if l.gateBusy && read <= |bytes| then l.out + bytes[..read] else l.out,
                        tx := if l.started then Failed else l.tx, started := false);
      EndSession(stopped, ended).(previousReady := false, place := Completion)
  }

  function CompletionStep(l: Loop): Loop {
    if !l.sendComplete then l.(place := Periodic)
    else
      var done := l.(sendComplete := false, gateBusy := false, dataPending := true, place := Periodic);
      if l.started && l.tx == InFlight then
        var (tx, stream) := OnCompleted(l.tx, l.stream);
        var sent := done.(tx := tx, stream := stream);
        if tx == Complete then
          sent.(pending := false, started := false,
                delivered := l.delivered + [Delivered(l.descriptor, l.waveform, l.begun, |l.out|)])
        else sent
      else done
  }

  /** A due capture needs a session and no frame waiting to be sent. */
  function PeriodicStep(l: Loop, captured: Option<Change>): Loop {
    if l.ready && !l.pending && captured.Some? then Apply(l, captured.value).(place := Arbitrate)
    else l.(place := Arbitrate)
  }

  function Apply(l: Loop, change: Change): Loop {
    l.(pending := change.pending, descriptor := change.descriptor, waveform := change.waveform)
  }

  function SendNext(sha: Sha, l: Loop, result: Started, ended: Change): Loop
    requires Fits(l.descriptor)
  {
    var m := if l.started then l else
      l.(stream := Build(sha, l.descriptor, l.waveform), tx := Ready, started := true);
    if m.tx != Ready then
      if m.tx == Complete then m.(pending := false, started := false)
      else if m.tx == Failed then EndSession(m, ended).(started := false)
      else m
    else
      var n := m.(sendComplete := false, tx := OnStart(m.tx, result));
      match result
      case SendStarted => n.(usb := Segment(m.stream.phase), gateBusy := true)
      case SendBusy => n
      case SendFatal => EndSession(n, ended).(started := false)
  }

  /** One received frame, if there is one, and its response. */
  function ProcessInput(l: Loop, handled: Option<Handled>, responseStarted: bool, ended: Change): Loop {
    var m := l.(dataPending := false);
    match handled
    case None => m
    case Some(h) =>
      var n := Apply(m, h.change).(sendComplete := false);
      if responseStarted then n.(usb := Response(h.response), gateBusy := true) else EndSession(n, ended)
  }

  /** first and second are what the two readings of the USB connection state and of the session
      flag find. */
  function ArbitrateStep(sha: Sha, l: Loop, a: Action): Loop
    requires a.RunArbitrate? && Fits(l.descriptor)
  {
    var m :=
      if a.first && l.ready && !l.gateBusy && l.pending then SendNext(sha, l, a.result, a.ended)
      else if a.second && l.ready && !l.gateBusy && l.dataPending then
        ProcessInput(l, a.handled, a.responseStarted, a.ended)
      else l;
    m.(place := Session)
  }

  /** Changes keep to the descriptor's array capacities. */
  predicate ChangeFits(c: Change) {
    Fits(c.descriptor)
  }

  const RESPONSE_BUFFER := 128

  /** A response is a frame in the response buffer. */
  predicate ResponseFits(response: seq<byte>) {
    F.HEADER_SIZE + F.CRC_SIZE <= |response| <= RESPONSE_BUFFER
  }

  predicate ActionFits(a: Action) {
    (a.RunSession? ==> ChangeFits(a.ended)) &&
    (a.RunPeriodic? && a.captured.Some? ==> ChangeFits(a.captured.value)) &&
    (a.RunArbitrate? ==>
      ChangeFits(a.ended) &&
      (a.handled.Some? ==> ChangeFits(a.handled.value.change) && ResponseFits(a.handled.value.response)))
  }

  predicate Enabled(l: Loop, a: Action) {
    Fits(l.descriptor) && ActionFits(a) &&
    match a
    case RunSession(_, _) => l.place == Session
    case RunCompletion => l.place == Completion
    case RunPeriodic(_) => l.place == Periodic
    case RunArbitrate(_, _, _, _, _, _) => l.place == Arbitrate
    case _ => true
  }

  function Next(sha: Sha, l: Loop, a: Action): Loop
    requires Enabled(l, a)
  {
    match a
    case UsbCompletes => UsbCompleted(l)
    case SessionIs(ready) => l.(ready := ready)
    case DataArrives => l.(dataPending := true)
    case RunSession(ended, read) => SessionStep(l, ended, read)
    case RunCompletion => CompletionStep(l)
    case RunPeriodic(captured) => PeriodicStep(l, captured)
    case RunArbitrate(_, _, _, _, _, _) => ArbitrateStep(sha, l, a)
  }

  predicate Initial(l: Loop) {
    l.place == Session && !l.pending && !l.started && !l.gateBusy && !l.sendComplete && l.usb == Nothing &&
    l.delivered == [] && Fits(l.descriptor)
  }

  // ---------------------------------------------------------------- the invariant

  /** A frame is under way, the engine rests between two of its segments, and a command waits. */
  predicate BetweenSegments(l: Loop) {
    l.started && l.tx == Ready && !l.gateBusy && l.ready && l.dataPending
  }

  function Current(l: Loop): Change {
    Change(l.pending, l.descriptor, l.waveform)
  }

  /** The link came back between the two readings, and the second let a command in. */
  predicate LetsIn(a: Action) {
    a.RunArbitrate? && a.second && !a.first && a.handled.Some?
  }

  /** No command is let in between two segments of a frame; one before the first segment may be, as
      long as it is answered and leaves the capture alone. */
  predicate Harmless(l: Loop, a: Action) {
    LetsIn(a) && BetweenSegments(l) ==> l.stream.phase == 0 && a.responseStarted && a.handled.value.change == Current(l)
  }

  /** The first n segments, as the current capture has them. */
  function Sent(s: Stream, w: Waveform, n: nat): seq<byte> {
    SentParts(s.header, s.metadata, CD.SampleBytes(w), s.crc, n)
  }

  function SentParts(header: seq<byte>, metadata: seq<byte>, samples: seq<byte>, crc: seq<byte>, n: nat): seq<byte> {
    (if n > 0 then header else []) + (if n > 1 then metadata else []) + (if n > 2 then samples else []) +
    (if n > 3 then crc else [])
  }

  /** Since its header began the output has been exactly the first n segments. */
  predicate Left(l: Loop, n: nat) {
    n > 0 ==> l.begun <= |l.out| && l.out[l.begun..] == Sent(l.stream, l.waveform, n)
  }

  /** While a frame is being sent it is pending, its segments are those of the capture the
      application holds now, and just the segments before the current one have left. */
  predicate Owned(sha: Sha, l: Loop)
    requires Fits(l.descriptor)
  {
    l.started ==>
      l.pending && l.stream.active && l.stream.phase < 4 &&
      l.stream == Build(sha, l.descriptor, l.waveform).(phase := l.stream.phase) &&
      (l.tx == Ready || l.tx == InFlight) &&
      (l.tx == Ready ==> Left(l, l.stream.phase) && (l.gateBusy ==> Answering(l))) &&
      (l.tx == Ready && !l.gateBusy ==> l.usb == Nothing && !l.sendComplete) &&
      (l.tx == InFlight ==>
        l.gateBusy &&
        if l.sendComplete then l.usb == Nothing && Left(l, l.stream.phase + 1)
        else l.usb == Segment(l.stream.phase) && Left(l, l.stream.phase))
  }

  /** A response is going out, or just has, before the first segment. */
  predicate Answering(l: Loop) {
    l.stream.phase == 0 && !l.usb.Segment? && (l.usb.Response? || l.sendComplete)
  }

  predicate Gated(l: Loop) {
    (l.usb != Nothing ==> l.gateBusy && !l.sendComplete) && (l.sendComplete ==> l.gateBusy) &&
    (!l.started ==> !l.usb.Segment?)
  }

  predicate Whole(sha: Sha, out: seq<byte>, x: Delivered) {
    Fits(x.descriptor) && x.start <= x.end <= |out| &&
    out[x.start..x.end] == WireBytes(sha, x.descriptor, x.waveform)
  }

  predicate AllDelivered(sha: Sha, out: seq<byte>, delivered: seq<Delivered>) {
    forall i :: 0 <= i < |delivered| ==> Whole(sha, out, delivered[i])
  }

  predicate Inv(sha: Sha, l: Loop) {
    Fits(l.descriptor) && Owned(sha, l) && Gated(l) && AllDelivered(sha, l.out, l.delivered)
  }

  lemma SentNext(s: Stream, w: Waveform, n: nat)
    requires n < 4
    ensures Sent(s, w, n + 1) == Sent(s, w, n) + SegmentBytes(s, n, w)
  {
    hide CD.SampleBytes;
  }

  lemma SentAll(sha: Sha, d: Descriptor, w: Waveform, phase: nat)
    requires Fits(d)
    ensures Sent(Build(sha, d, w).(phase := phase), w, 4) == WireBytes(sha, d, w)
  {
    hide CD.SampleBytes, MetadataSegment, CrcSegment, HeaderSegment;
  }

  lemma WholeStays(sha: Sha, out: seq<byte>, more: seq<byte>, x: Delivered)
    requires Whole(sha, out, x)
    ensures Whole(sha, out + more, x)
  {
    hide WireBytes, Fits;
    assert (out + more)[x.start..x.end] == out[x.start..x.end];
  }

  lemma OutGrows(sha: Sha, out: seq<byte>, more: seq<byte>, delivered: seq<Delivered>)
    requires AllDelivered(sha, out, delivered)
    ensures AllDelivered(sha, out + more, delivered)
  {
    hide Whole;
    forall i | 0 <= i < |delivered| ensures Whole(sha, out + more, delivered[i]) {
      WholeStays(sha, out, more, delivered[i]);
    }
  }

  lemma LeftGrows(l: Loop, n: nat)
    requires n < 4 && Left(l, n) && l.usb == Segment(n)
    ensures Left(UsbCompleted(l), n + 1)
  {
    hide SentParts, CD.SampleBytes, SegmentBytes;
    var bytes := SegmentBytes(l.stream, n, l.waveform);
    SentNext(l.stream, l.waveform, n);
    if n == 0 {
      SentNone(l.stream, l.waveform);
      assert (l.out + bytes)[|l.out|..] == bytes;
    } else {
      assert (l.out + bytes)[l.begun..] == l.out[l.begun..] + bytes;
    }
  }

  lemma SentNone(s: Stream, w: Waveform)
    ensures Sent(s, w, 0) == []
  {
    hide CD.SampleBytes;
  }

  lemma NoneLeft(l: Loop)
    ensures Left(l, 0)
  {
  }

  lemma UsbKeeps(sha: Sha, l: Loop)
    requires Inv(sha, l)
    ensures Inv(sha, UsbCompleted(l))
  {
    hide AllDelivered, Build, SegmentBytes, Sent, CD.SampleBytes, Left;
    OutGrows(sha, l.out, InTransit(l), l.delivered);
    NoneLeft(UsbCompleted(l));
    if l.usb.Segment? {
      LeftGrows(l, l.stream.phase);
    }
  }

  lemma SessionKeeps(sha: Sha, l: Loop, ended: Change, read: nat)
    requires Inv(sha, l) && ChangeFits(ended)
    ensures Inv(sha, SessionStep(l, ended, read))
  {
    if l.ready || !l.previousReady {
      hide AllDelivered, Build, Sent, InTransit, Fits;
    } else {
      SessionLost(sha, l, ended, read);
      hide Inv, SessionStep;
    }
  }

  lemma SessionLost(sha: Sha, l: Loop, ended: Change, read: nat)
    requires Inv(sha, l) && ChangeFits(ended) && !l.ready && l.previousReady
    ensures Inv(sha, SessionStep(l, ended, read))
  {
    var bytes := InTransit(l);
    OutGrows(sha, l.out, if read <= |bytes| then bytes[..read] else [], l.delivered);
    hide AllDelivered, Build, Left, InTransit, Fits;
    assert l.out + [] == l.out;
  }

  /** The segments of a frame that has left whole are its wire form. */
  lemma LeftWhole(sha: Sha, l: Loop)
    requires Fits(l.descriptor) && Left(l, 4) && l.stream == Build(sha, l.descriptor, l.waveform).(phase := l.stream.phase)
    ensures Whole(sha, l.out, Delivered(l.descriptor, l.waveform, l.begun, |l.out|))
  {
    hide Build, Sent, WireBytes, Fits;
    SentAll(sha, l.descriptor, l.waveform, l.stream.phase);
    assert l.out[l.begun..|l.out|] == l.out[l.begun..];
  }

  lemma CompletionKeeps(sha: Sha, l: Loop)
    requires Inv(sha, l)
    ensures Inv(sha, CompletionStep(l))
  {
    hide Whole, Build, SentParts, WireBytes, Fits, CD.SampleBytes;
    if l.sendComplete && l.started && l.stream.phase == 3 {
      LeftWhole(sha, l);
    }
  }

  lemma PeriodicKeeps(sha: Sha, l: Loop, captured: Option<Change>)
    requires Inv(sha, l) && (captured.Some? ==> ChangeFits(captured.value))
    ensures Inv(sha, PeriodicStep(l, captured))
  {
    hide AllDelivered, Build, Sent;
  }

  lemma SendKeeps(sha: Sha, l: Loop, result: Started, ended: Change)
    requires Inv(sha, l) && ChangeFits(ended) && !l.gateBusy && l.pending
    ensures Inv(sha, SendNext(sha, l, result, ended))
  {
    BuildPhase(sha, l.descriptor, l.waveform);
    hide AllDelivered, Build, Sent, Fits;
    if !l.started {
      StartKeeps(sha, l, result, ended);
    }
  }

  lemma StartKeeps(sha: Sha, l: Loop, result: Started, ended: Change)
    requires Inv(sha, l) && ChangeFits(ended) && !l.gateBusy && l.pending && !l.started
    ensures Inv(sha, SendNext(sha, l, result, ended))
  {
    BuildPhase(sha, l.descriptor, l.waveform);
    hide AllDelivered, Build, Sent, Fits;
  }

  lemma BuildPhase(sha: Sha, d: Descriptor, w: Waveform)
    requires Fits(d)
    ensures var s := Build(sha, d, w); s.phase == 0 && s.active && Sent(s, w, 0) == []
  {
  }

  lemma InputKeeps(sha: Sha, l: Loop, a: Action)
    requires Inv(sha, l) && a.RunArbitrate? && ActionFits(a) && !l.gateBusy && !l.started
    ensures Inv(sha, ProcessInput(l, a.handled, a.responseStarted, a.ended))
  {
    hide AllDelivered, Build, Sent;
  }

  lemma AnswerKeeps(sha: Sha, l: Loop, a: Action)
    requires Inv(sha, l) && a.RunArbitrate? && BetweenSegments(l)
    requires a.handled.Some? ==> l.stream.phase == 0 && a.responseStarted && a.handled.value.change == Current(l)
    ensures Inv(sha, ProcessInput(l, a.handled, a.responseStarted, a.ended))
  {
    hide AllDelivered, Build, Sent, Fits;
  }

  lemma ArbitrateKeeps(sha: Sha, l: Loop, a: Action)
    requires Inv(sha, l) && a.RunArbitrate? && ActionFits(a) && Harmless(l, a)
    ensures Inv(sha, ArbitrateStep(sha, l, a))
  {
    hide SendNext, ProcessInput, AllDelivered, Build, Sent, WireBytes, Fits;
    if a.first && l.ready && !l.gateBusy && l.pending {
      SendKeeps(sha, l, a.result, a.ended);
    } else if !l.gateBusy && !l.started {
      InputKeeps(sha, l, a);
    } else if BetweenSegments(l) && a.second {
      AnswerKeeps(sha, l, a);
    }
  }

  lemma InterruptKeeps(sha: Sha, l: Loop, ready: bool)
    requires Inv(sha, l)
    ensures Inv(sha, l.(ready := ready)) && Inv(sha, l.(dataPending := true))
  {
    hide AllDelivered, Build, Sent;
  }

  lemma StepKeeps(sha: Sha, l: Loop, a: Action)
    requires Inv(sha, l) && Enabled(l, a) && Harmless(l, a)
    ensures Inv(sha, Next(sha, l, a))
  {
    hide Inv, UsbCompleted, SessionStep, CompletionStep, PeriodicStep, ArbitrateStep, Fits;
    match a
    case UsbCompletes => UsbKeeps(sha, l);
    case SessionIs(ready) => InterruptKeeps(sha, l, ready);
    case DataArrives => InterruptKeeps(sha, l, l.ready);
    case RunSession(ended, read) => SessionKeeps(sha, l, ended, read);
    case RunCompletion => CompletionKeeps(sha, l);
    case RunPeriodic(captured) => PeriodicKeeps(sha, l, captured);
    case RunArbitrate(_, _, _, _, _, _) => ArbitrateKeeps(sha, l, a);
  }

  // ---------------------------------------------------------------- whole runs

  /** No command disturbs a frame that is under way. */
  ghost predicate HarmlessRun(sha: Sha, l: Loop, actions: seq<Action>)
    decreases |actions|
  {
    actions == [] ||
    (Enabled(l, actions[0]) && Harmless(l, actions[0]) && HarmlessRun(sha, Next(sha, l, actions[0]), actions[1..]))
  }

  ghost function Run(sha: Sha, l: Loop, actions: seq<Action>): Loop
    requires HarmlessRun(sha, l, actions)
    decreases |actions|
  {
    if actions == [] then l else Run(sha, Next(sha, l, actions[0]), actions[1..])
  }

  lemma {:induction false} RunKeeps(sha: Sha, l: Loop, actions: seq<Action>)
    requires Inv(sha, l) && HarmlessRun(sha, l, actions)
    ensures Inv(sha, Run(sha, l, actions))
    decreases |actions|
  {
    hide Inv, Enabled, Next, Harmless;
    if actions != [] {
      StepKeeps(sha, l, actions[0]);
      RunKeeps(sha, Next(sha, l, actions[0]), actions[1..]);
    }
  }

  lemma InitialInv(sha: Sha, l: Loop)
    requires Initial(l)
    ensures Inv(sha, l)
  {
  }

  /** The bytes of a completed frame, as they left. */
  function WireOf(l: Loop, x: Delivered): seq<byte>
    requires x.start <= x.end <= |l.out|
  {
    l.out[x.start..x.end]
  }

  /** Whatever interleaving of interrupts, commands, periodic captures, BUSY and fatal results,
      aborted transmissions and lost sessions: a frame that completes is one unbroken stretch of the
      output, with no byte of a response between its segments, and the host decodes it to exactly
      the capture held when it completed. */
  lemma CompletedFramesAreWhole(sha: Sha, l: Loop, actions: seq<Action>, i: nat)
    requires Initial(l) && HarmlessRun(sha, l, actions)
    ensures var m := Run(sha, l, actions);
            i < |m.delivered| ==>
              var x := m.delivered[i];
              Fits(x.descriptor) && x.start <= x.end <= |m.out| &&
              var f := FrameOf(sha, x.descriptor, x.waveform);
              WireOf(m, x) == WireBytes(sha, x.descriptor, x.waveform) && F.DecodeFrame(WireOf(m, x)) == F.Accepted(f) &&
              CD.Decode(f.payload) ==
                (if DescriptorValid(x.descriptor) then Some(CaptureOf(sha, x.descriptor, x.waveform)) else None)
  {
    hide *;
    InitialInv(sha, l);
    RunKeeps(sha, l, actions);
    var m := Run(sha, l, actions);
    if i < |m.delivered| {
      DeliveredWhole(sha, m, i);
      WaveformDelivered(sha, m.delivered[i].descriptor, m.delivered[i].waveform);
    }
  }

  lemma DeliveredWhole(sha: Sha, m: Loop, i: nat)
    requires Inv(sha, m) && i < |m.delivered|
    ensures var x := m.delivered[i];
            Fits(x.descriptor) && |x.waveform| == SAMPLE_COUNT && x.start <= x.end <= |m.out| &&
            WireOf(m, x) == WireBytes(sha, x.descriptor, x.waveform)
  {
    hide WireBytes, Owned, Gated, Fits;
    assert Whole(sha, m.out, m.delivered[i]);
  }

  /** From the checksum to the last byte nothing captures or reconfigures: the stream always
      belongs to the capture the application holds. */
  lemma NothingOverwrites(sha: Sha, l: Loop, actions: seq<Action>)
    requires Initial(l) && HarmlessRun(sha, l, actions)
    ensures var m := Run(sha, l, actions);
            m.started ==>
              m.pending && Fits(m.descriptor) &&
              m.stream == Build(sha, m.descriptor, m.waveform).(phase := m.stream.phase)
  {
    InitialInv(sha, l);
    RunKeeps(sha, l, actions);
    hide Run, HarmlessRun, Build, Initial;
  }
}
