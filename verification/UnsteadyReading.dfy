/** When the two readings of the link disagree: exactly when a frame on the wire can be spoiled. */
module UnsteadyReading {
  import opened Bytes
  import opened Delivery
  import opened Packing
  import opened CaptureStream
  import opened MainLoop
  import CD = CaptureData
  import F = Frame
  import Crc32

  /** Some completed frame is one that the host refuses. */
  ghost predicate Refused(m: Loop) {
    exists x :: x in m.delivered && x.start <= x.end <= |m.out| && !F.DecodeFrame(WireOf(m, x)).Accepted?
  }

  /** One arbitration, then nothing but harmless steps, and a completed frame is refused. */
  ghost predicate Spoils(sha: Sha, l: Loop, a: Action, actions: seq<Action>) {
    Enabled(l, a) && HarmlessRun(sha, Next(sha, l, a), actions) && Refused(Run(sha, Next(sha, l, a), actions))
  }

  /** It only handles a command that leaves the capture alone, and answers it. */
  predicate OnlyAnswers(l: Loop, a: Action) {
    a.RunArbitrate? && a.handled.Some? && a.responseStarted && a.handled.value.change == Current(l)
  }

  // ---------------------------------------------------------------- composing runs

  lemma RunCons(sha: Sha, l: Loop, a: Action, rest: seq<Action>)
    requires Enabled(l, a) && Harmless(l, a) && HarmlessRun(sha, Next(sha, l, a), rest)
    ensures HarmlessRun(sha, l, [a] + rest) && Run(sha, l, [a] + rest) == Run(sha, Next(sha, l, a), rest)
  {
    hide Enabled, Harmless, Next;
    assert ([a] + rest)[1..] == rest;
  }

  lemma {:induction false} RunAppend(sha: Sha, l: Loop, a: seq<Action>, b: seq<Action>)
    requires HarmlessRun(sha, l, a) && HarmlessRun(sha, Run(sha, l, a), b)
    ensures HarmlessRun(sha, l, a + b) && Run(sha, l, a + b) == Run(sha, Run(sha, l, a), b)
    decreases |a|
  {
    hide Enabled, Harmless, Next;
    if a == [] {
      assert a + b == b;
    } else {
      assert (a + b)[0] == a[0] && (a + b)[1..] == a[1..] + b;
      RunAppend(sha, Next(sha, l, a[0]), a[1..], b);
    }
  }

  // ---------------------------------------------------------------- one pass of the loop

  /** One pass in which nothing but the transmission makes progress. */
  function Pass(e: Change): seq<Action> {
    [UsbCompletes] + ([RunSession(e, 0)] + ([RunCompletion] + ([RunPeriodic(None)] + ([Sends(e)] + []))))
  }

  function Sends(e: Change): Action {
    RunArbitrate(true, true, SendStarted, e, None, false)
  }

  function AfterPass(sha: Sha, m: Loop, e: Change): Loop
    requires Fits(m.descriptor) && ChangeFits(e)
  {
    PassFits(m, e);
    ArbitrateStep(sha, BeforeArbitration(m, e), Sends(e))
  }

  function BeforeArbitration(m: Loop, e: Change): Loop {
    PeriodicStep(CompletionStep(SessionStep(UsbCompleted(m), e, 0)), None)
  }

  /** The steps come round in order. */
  lemma PassFits(m: Loop, e: Change)
    requires Fits(m.descriptor) && ChangeFits(e)
    ensures Fits(UsbCompleted(m).descriptor) && UsbCompleted(m).place == m.place
    ensures var b := SessionStep(UsbCompleted(m), e, 0);
            Fits(b.descriptor) && b.place == Completion &&
            Fits(CompletionStep(b).descriptor) && CompletionStep(b).place == Periodic
    ensures Fits(BeforeArbitration(m, e).descriptor) && BeforeArbitration(m, e).place == Arbitrate
  {
    hide InTransit, OnCompleted, Fits;
  }

  lemma PassRuns(sha: Sha, m: Loop, e: Change)
    requires m.place == Session && Fits(m.descriptor) && ChangeFits(e)
    ensures HarmlessRun(sha, m, Pass(e)) && Run(sha, m, Pass(e)) == AfterPass(sha, m, e)
  {
    hide UsbCompleted, SessionStep, CompletionStep, PeriodicStep, ArbitrateStep, Fits, Run, HarmlessRun;
    PassFits(m, e);
    var a := UsbCompleted(m);
    var b := SessionStep(a, e, 0);
    var c := CompletionStep(b);
    var d := PeriodicStep(c, None);
    NoMoreSteps(sha, ArbitrateStep(sha, d, Sends(e)));
    RunCons(sha, d, Sends(e), []);
    RunCons(sha, c, RunPeriodic(None), [Sends(e)] + []);
    RunCons(sha, b, RunCompletion, [RunPeriodic(None)] + ([Sends(e)] + []));
    RunCons(sha, a, RunSession(e, 0), [RunCompletion] + ([RunPeriodic(None)] + ([Sends(e)] + [])));
    RunCons(sha, m, UsbCompletes, [RunSession(e, 0)] + ([RunCompletion] + ([RunPeriodic(None)] + ([Sends(e)] + []))));
  }

  lemma NoMoreSteps(sha: Sha, x: Loop)
    ensures HarmlessRun(sha, x, []) && Run(sha, x, []) == x
  {
  }

  predicate UnderWay(m: Loop, p: nat) {
    m.place == Session && m.ready && m.pending && m.started && m.gateBusy && !m.sendComplete &&
    m.stream.active && m.stream.phase == p < 4 && Fits(m.descriptor)
  }

  /** Segment p is being read. */
  predicate Flying(m: Loop, p: nat) {
    UnderWay(m, p) && m.tx == InFlight && m.usb == Segment(p)
  }

  /** After a response has gone out, the segment whose turn it was follows. */
  lemma ResponsePass(sha: Sha, m: Loop, p: nat, e: Change)
    requires UnderWay(m, p) && m.tx == Ready && m.usb.Response? && ChangeFits(e)
    ensures var n := AfterPass(sha, m, e);
            Flying(n, p) && n.out == m.out + m.usb.bytes && n.begun == m.begun && n.stream == m.stream &&
            n.waveform == m.waveform && n.descriptor == m.descriptor && n.delivered == m.delivered
  {
    hide SegmentBytes, Fits;
  }

  /** A segment goes out and the next one is started. */
  lemma SegmentPass(sha: Sha, m: Loop, p: nat, e: Change)
    requires Flying(m, p) && p < 3 && ChangeFits(e)
    ensures var n := AfterPass(sha, m, e);
            Flying(n, p + 1) && n.out == m.out + SegmentBytes(m.stream, p, m.waveform) &&
            n.begun == (if p == 0 then |m.out| else m.begun) && n.stream == m.stream.(phase := p + 1) &&
            n.waveform == m.waveform && n.descriptor == m.descriptor && n.delivered == m.delivered
  {
    hide SegmentBytes, Fits;
  }

  /** The checksum goes out and the frame is complete. */
  lemma LastPass(sha: Sha, m: Loop, e: Change)
    requires Flying(m, 3) && ChangeFits(e)
    ensures var n := AfterPass(sha, m, e);
            n.out == m.out + m.stream.crc &&
            n.delivered == m.delivered + [Delivered(m.descriptor, m.waveform, m.begun, |n.out|)]
  {
    hide Fits;
  }

  /** The segments from p on. */
  function Remaining(s: Stream, w: Waveform, p: nat): seq<byte>
    decreases 4 - p
  {
    if p >= 4 then [] else SegmentBytes(s, p, w) + Remaining(s, w, p + 1)
  }

  lemma {:induction false} RemainingSame(s: Stream, q: nat, w: Waveform, p: nat)
    ensures Remaining(s.(phase := q), w, p) == Remaining(s, w, p)
    decreases 4 - p
  {
    if p < 4 {
      RemainingSame(s, q, w, p + 1);
    }
  }

  lemma {:induction false} FlightEnds(sha: Sha, m: Loop, p: nat, e: Change) returns (actions: seq<Action>)
    requires Flying(m, p) && ChangeFits(e)
    ensures HarmlessRun(sha, m, actions)
    ensures var r := Run(sha, m, actions);
            r.out == m.out + Remaining(m.stream, m.waveform, p) &&
            r.delivered ==
              m.delivered + [Delivered(m.descriptor, m.waveform, if p == 0 then |m.out| else m.begun, |r.out|)]
    decreases 4 - p
  {
    hide Run, HarmlessRun, AfterPass, SegmentBytes, Fits;
    PassRuns(sha, m, e);
    var n := AfterPass(sha, m, e);
    if p < 3 {
      SegmentPass(sha, m, p, e);
      var rest := FlightEnds(sha, n, p + 1, e);
      RunAppend(sha, m, Pass(e), rest);
      RemainingSame(m.stream, p + 1, m.waveform, p + 1);
      actions := Pass(e) + rest;
    } else {
      LastPass(sha, m, e);
      RemainingLast(m.stream, m.waveform);
      actions := Pass(e);
    }
  }

  lemma RemainingLast(s: Stream, w: Waveform)
    ensures Remaining(s, w, 3) == s.crc
  {
  }

  // ---------------------------------------------------------------- the command in between

  /** A new capture that differs in one sample. */
  function Touched(w: Waveform): Waveform {
    w[0 := Bumped(w[0])]
  }

  function Bumped(v: u16): u16 {
    if v == 0xFFFF then 0 else v + 1
  }

  /** The readings disagree, and a command that leaves these samples behind is handled and answered. */
  function Answered(l: Loop, v: Waveform, response: seq<byte>): Action {
    RunArbitrate(false, true, SendBusy, Change(false, l.descriptor, l.waveform),
                 Some(Handled(Change(true, l.descriptor, v), response)), true)
  }

  /** Its response goes out, then the rest of the old stream with the new samples. */
  lemma AnsweredEnds(sha: Sha, l: Loop, v: Waveform, response: seq<byte>) returns (actions: seq<Action>)
    requires Inv(sha, l) && BetweenSegments(l) && l.place == Arbitrate && ResponseFits(response)
    ensures Enabled(l, Answered(l, v, response))
    ensures var m := Next(sha, l, Answered(l, v, response));
            var p := l.stream.phase;
            HarmlessRun(sha, m, actions) &&
            var r := Run(sha, m, actions);
            r.out == l.out + response + Remaining(l.stream, v, p) &&
            r.delivered == l.delivered +
              [Delivered(l.descriptor, v, if p == 0 then |l.out| + |response| else l.begun, |r.out|)]
  {
    hide Run, HarmlessRun, Build, Left, AllDelivered, SegmentBytes, Fits;
    var m := Next(sha, l, Answered(l, v, response));
    var p := l.stream.phase;
    var e := Change(false, l.descriptor, l.waveform);
    assert UnderWay(m, p) && m.tx == Ready && m.usb == Response(response);
    assert m.out == l.out && m.begun == l.begun && m.stream == l.stream && m.delivered == l.delivered;
    hide Next, Inv;
    PassRuns(sha, m, e);
    ResponsePass(sha, m, p, e);
    var n := AfterPass(sha, m, e);
    var rest := FlightEnds(sha, n, p, e);
    RunAppend(sha, m, Pass(e), rest);
    actions := Pass(e) + rest;
  }

  // ---------------------------------------------------------------- and what the host makes of it

  lemma SamplesDiffer(w: Waveform)
    ensures var x, y := CD.SampleBytes(w), CD.SampleBytes(Touched(w));
            |x| == |y| == 2 * SAMPLE_COUNT && x[2..] == y[2..] && x != y
  {
    var v := Touched(w);
    SampleLength(w);
    SampleLength(v);
    FirstSample(w);
    FirstSample(v);
    var a, b := CD.SampleFields(w)[1..], CD.SampleFields(v)[1..];
    assert a == b;
    var x, y := Pack16(w[0]), Pack16(v[0]);
    assert x + [] == x && y + [] == y;
    Le16Reads(w[0], [], []);
    Le16Reads(v[0], [], []);
    hide Join, CD.SampleBytes, Le16;
    assert CD.SampleBytes(w) == x + Join(a) && CD.SampleBytes(v) == y + Join(a);
    assert (x + Join(a))[..2] == x && (y + Join(a))[..2] == y;
  }

  lemma SampleLength(w: Waveform)
    ensures |CD.SampleBytes(w)| == 2 * SAMPLE_COUNT
  {
    hide Join;
    CD.RowsJoin(CD.SampleFields(w), 2, [], []);
  }

  lemma FirstSample(w: Waveform)
    ensures CD.SampleBytes(w) == Pack16(w[0]) + Join(CD.SampleFields(w)[1..])
  {
  }

  /** The four segments of a built stream, and how long they are. */
  lemma BuiltSegments(sha: Sha, d: Descriptor, w: Waveform) returns (header: seq<byte>, metadata: seq<byte>, crc: seq<byte>)
    requires Fits(d)
    ensures var s := Build(sha, d, w); s.header == header && s.metadata == metadata && s.crc == crc
    ensures |header| == F.HEADER_SIZE && |crc| == F.CRC_SIZE && |CD.SampleBytes(w)| == 2 * SAMPLE_COUNT
    ensures U32At(header, 12) == |metadata| + 2 * SAMPLE_COUNT
    ensures crc == Le32(Crc32.Checksum(header[4..] + (metadata + CD.SampleBytes(w))))
  {
    hide MetadataSegment, CD.SampleBytes, Crc32.Checksum, F.Header, Le32, U32At;
    SegmentLengths(sha, d, w);
    metadata := MetadataSegment(sha, d, w);
    header := HeaderSegment(d, |metadata|);
    crc := CrcSegment(header, metadata, CD.SampleBytes(w));
    F.HeaderReads(F.CAPTURE_DATA, FrameFlags(d), d.frameSequence, |metadata| + 2 * SAMPLE_COUNT);
    CrcOfSegments(header, metadata, CD.SampleBytes(w));
  }

  /** The old checksum does not cover the new samples. */
  lemma StaleRefused(sha: Sha, d: Descriptor, w: Waveform)
    requires Fits(d)
    ensures !F.DecodeFrame(Remaining(Build(sha, d, w), Touched(w), 0)).Accepted?
  {
    var header, metadata, crc := BuiltSegments(sha, d, w);
    var s := Build(sha, d, w);
    RemainingAll(s, Touched(w));
    SamplesDiffer(w);
    hide Build, CD.SampleBytes, Crc32.Checksum, Remaining, Touched, Le32, U32At;
    var x, y := CD.SampleBytes(w), CD.SampleBytes(Touched(w));
    ChecksumStale(header, metadata, x, y, crc);
  }

  lemma RemainingAll(s: Stream, w: Waveform)
    ensures Remaining(s, w, 0) == s.header + s.metadata + CD.SampleBytes(w) + s.crc
  {
    hide CD.SampleBytes;
    assert Remaining(s, w, 1) == s.metadata + (CD.SampleBytes(w) + (s.crc + []));
  }

  lemma ChecksumStale(header: seq<byte>, metadata: seq<byte>, x: seq<byte>, y: seq<byte>, crc: seq<byte>)
    requires |header| == F.HEADER_SIZE && |crc| == F.CRC_SIZE && |x| == |y| >= 4 && x[2..] == y[2..] && x != y
    requires crc == Le32(Crc32.Checksum(header[4..] + (metadata + x)))
    ensures !F.DecodeFrame(header + metadata + y + crc).Accepted?
  {
    hide Crc32.Checksum, Le32, U32At;
    var data := header + metadata + y + crc;
    var i := 12 + |metadata|;
    var p, q := header[4..] + (metadata + x), header[4..] + (metadata + y);
    assert data[4..|data| - 4] == q;
    assert data == (header + metadata + y) + Le32(Crc32.Checksum(p)) + [];
    Le32Reads(Crc32.Checksum(p), header + metadata + y, []);
    assert p[..i] == header[4..] + metadata == q[..i];
    assert p[i..] == x && q[i..] == y;
    assert p[i + 4..] == x[4..] == x[2..][2..] && q[i + 4..] == y[4..] == y[2..][2..];
    Crc32.ChecksumsDiffer(p, q, i);
  }

  /** A response inside a frame makes it longer than its header says. */
  lemma InterleavedRefused(sha: Sha, d: Descriptor, w: Waveform, v: Waveform, p: nat, response: seq<byte>)
    requires Fits(d) && 0 < p < 4 && response != []
    ensures !F.DecodeFrame(Sent(Build(sha, d, w), w, p) + response + Remaining(Build(sha, d, w), v, p)).Accepted?
  {
    var header, metadata, crc := BuiltSegments(sha, d, w);
    SampleLength(v);
    var s := Build(sha, d, w);
    var data := Sent(s, w, p) + response + Remaining(s, v, p);
    hide Build, CD.SampleBytes, Crc32.Checksum, Le32, U32At;
    SplitLength(s, w, v, p);
    assert header <= data;
    WordsOfPrefix(data, header, 12);
  }

  lemma SplitLength(s: Stream, w: Waveform, v: Waveform, p: nat)
    requires 0 < p < 4 && |CD.SampleBytes(v)| == |CD.SampleBytes(w)|
    ensures s.header <= Sent(s, w, p)
    ensures |Sent(s, w, p)| + |Remaining(s, v, p)| == |s.header| + |s.metadata| + |CD.SampleBytes(w)| + |s.crc|
  {
    hide CD.SampleBytes;
    RemainingLast(s, v);
    assert Remaining(s, v, 2) == CD.SampleBytes(v) + Remaining(s, v, 3);
    assert Remaining(s, v, 1) == s.metadata + Remaining(s, v, 2);
  }

  lemma LastPart(a: seq<byte>, b: seq<byte>, c: seq<byte>)
    ensures (a + b + c)[|a| + |b|..|a + b + c|] == c
  {
  }

  lemma PartSince(a: seq<byte>, k: nat, b: seq<byte>, c: seq<byte>)
    requires k <= |a|
    ensures (a + b + c)[k..|a + b + c|] == a[k..] + b + c
  {
  }

  /** What is between the header and the checksum when the command came in between. */
  lemma SpoiledRefused(sha: Sha, l: Loop, v: Waveform, response: seq<byte>)
    requires Fits(l.descriptor) && Owned(sha, l) && BetweenSegments(l) && response != []
    requires l.stream.phase == 0 ==> v == Touched(l.waveform)
    ensures var p := l.stream.phase;
            var out := l.out + response + Remaining(l.stream, v, p);
            var start := if p == 0 then |l.out| + |response| else l.begun;
            start <= |out| && !F.DecodeFrame(out[start..|out|]).Accepted?
  {
    hide Build, SentParts, Fits, Remaining, Touched, F.DecodeFrame, CD.SampleBytes;
    var p, w := l.stream.phase, l.waveform;
    var s := Build(sha, l.descriptor, w);
    var tail := Remaining(l.stream, v, p);
    RemainingSame(s, p, v, p);
    if p == 0 {
      StaleRefused(sha, l.descriptor, w);
      LastPart(l.out, response, tail);
    } else {
      InterleavedRefused(sha, l.descriptor, w, v, p, response);
      PartSince(l.out, l.begun, response, tail);
    }
  }

  /** Whatever the command answers, the frame under way is completed and refused: after the first
      segment whether or not it makes another capture, before it if it makes one. */
  lemma AnsweredSpoils(sha: Sha, l: Loop, v: Waveform, response: seq<byte>) returns (actions: seq<Action>)
    requires Inv(sha, l) && BetweenSegments(l) && l.place == Arbitrate && ResponseFits(response)
    requires l.stream.phase == 0 ==> v == Touched(l.waveform)
    ensures Spoils(sha, l, Answered(l, v, response), actions)
  {
    actions := AnsweredEnds(sha, l, v, response);
    SpoiledRefused(sha, l, v, response);
    hide Run, HarmlessRun, Next, Inv, Fits, Remaining, Answered, Touched, F.DecodeFrame, Enabled, BetweenSegments;
    var r := Run(sha, Next(sha, l, Answered(l, v, response)), actions);
    var x := r.delivered[|l.delivered|];
    assert x in r.delivered && WireOf(r, x) == r.out[x.start..x.end];
  }

  /** The exact condition. In any state of a harmless run, some arbitration followed by harmless steps
      completes a frame that the host refuses if and only if a frame is under way, the engine rests
      between two of its segments, and a command waits. A command that is merely answered does so
      if and only if the first segment has left. Before that it takes one that makes another capture,
      which the application does only when it is idle, configured and without a clock fault. */
  lemma UnsteadySpoils(sha: Sha, l: Loop, before: seq<Action>)
    requires Initial(l) && HarmlessRun(sha, l, before) && Run(sha, l, before).place == Arbitrate
    ensures var m := Run(sha, l, before);
            ((exists a, actions :: Spoils(sha, m, a, actions)) <==> BetweenSegments(m)) &&
            ((exists a, actions :: OnlyAnswers(m, a) && Spoils(sha, m, a, actions)) <==>
              BetweenSegments(m) && m.stream.phase > 0)
  {
    hide Run, HarmlessRun, Initial, Inv, BetweenSegments, Spoils, Harmless, OnlyAnswers;
    InitialInv(sha, l);
    RunKeeps(sha, l, before);
    var m := Run(sha, l, before);
    if BetweenSegments(m) {
      var response := seq(F.HEADER_SIZE + F.CRC_SIZE, _ => 0);
      var actions := AnsweredSpoils(sha, m, Touched(m.waveform), response);
      if m.stream.phase > 0 {
        var more := AnsweredSpoils(sha, m, m.waveform, response);
        AnswerOnly(sha, m, response);
      }
    }
    forall a, actions | Spoils(sha, m, a, actions)
      ensures BetweenSegments(m) && (OnlyAnswers(m, a) ==> m.stream.phase > 0)
    {
      SpoilsMeans(sha, m, a, actions);
    }
  }

  lemma AnswerOnly(sha: Sha, m: Loop, response: seq<byte>)
    requires Inv(sha, m) && BetweenSegments(m)
    ensures OnlyAnswers(m, Answered(m, m.waveform, response))
  {
    hide Build, AllDelivered, Left;
  }

  lemma SpoilsMeans(sha: Sha, m: Loop, a: Action, actions: seq<Action>)
    requires Inv(sha, m) && Spoils(sha, m, a, actions)
    ensures BetweenSegments(m) && (OnlyAnswers(m, a) ==> m.stream.phase > 0)
  {
    hide Run, HarmlessRun, Inv, Next, Refused, Enabled;
    if Harmless(m, a) {
      StepKeeps(sha, m, a);
      var n := Next(sha, m, a);
      RunKeeps(sha, n, actions);
      NothingRefused(sha, Run(sha, n, actions));
    }
  }

  lemma NothingRefused(sha: Sha, r: Loop)
    requires Inv(sha, r)
    ensures !Refused(r)
  {
    hide Inv, F.DecodeFrame, WireBytes, Fits;
    forall x | x in r.delivered && x.start <= x.end <= |r.out| ensures F.DecodeFrame(WireOf(r, x)).Accepted? {
      var i :| 0 <= i < |r.delivered| && r.delivered[i] == x;
      DeliveredWhole(sha, r, i);
      WaveformDelivered(sha, x.descriptor, x.waveform);
    }
  }
}
