/** What becomes of a request for a capture: when it is acknowledged, what the host is told when it is
    not, and that the frame sent afterwards is the one that was asked for. */
module CaptureMade {
  import opened Bytes
  import opened Delivery
  import opened FirmwareApp
  import opened MessagesAgree
  import D = DeviceMessages
  import CS = CaptureStream
  import CD = CaptureData
  import CI = ConfigInForce
  import H = HardwareSafety
  import Pr = Profile
  import F = Frame
  import C = ConfigV2
  import S = Schedule
  import T = Configurator
  import P = McuParser
  import Crc32

  // ---------------------------------------------------------------- single captures

  /** A capture worth sending: all samples there, the trigger where it was configured, the burst
      completed, and nothing timed out or faulted. */
  predicate Usable(taken: Answer, pretrigger: u16) {
    taken.ok && pretrigger <= 2048 && taken.report.captured == 2048 && taken.report.triggerIndex == pretrigger &&
    taken.report.dmaRemaining == 0 && taken.report.burstCompleted && !taken.report.timedOut &&
    !taken.report.syncTimedOut && !taken.report.hardwareFault
  }

  /** The calls of a single capture, each asked after those before. */
  function Applied(env: Env, t: Trace, a: App): Event {
    Issue(env, t, Apply(ProfileOf(a.config)))
  }

  function Taken(env: Env, t: Trace, a: App, trigger: byte, timeout: u32, periodic: bool): Event {
    Issue(env, t + [Applied(env, t, a)], Capture(a.config, trigger, timeout, periodic))
  }

  function Calls(env: Env, t: Trace, a: App, trigger: byte, timeout: u32, periodic: bool): Trace {
    var u := t + [Applied(env, t, a), Taken(env, t, a, trigger, timeout, periodic)];
    u + [Issue(env, u, ForceSafe)]
  }

  predicate MadeSafe(u: Trace) {
    u != [] && u[|u| - 1].answer.result == T.Ok
  }

  /** What the host reads from a refused request. */
  predicate ReadsError(response: F.Frame, requestId: Id16, messageType: byte, a: App, code: u16, d0: u32, d1: u32) {
    response.messageType == F.ERROR &&
    D.DecodeError(response.payload) == Some(D.DeviceError(requestId, messageType, StateCode(a.state), code, d0, d1, []))
  }

  /** The capture that is now held. */
  function Holding(a: App, requestId: Id16, sequence: u32, report: Report, cache: Cache): App {
    a.(captureRequestId := requestId, captureScheduleId := S.NO_ID, captureAsync := false,
       captureRequestSequence := sequence, captureSequence := NextSequence(a.captureSequence),
       captureReport := Some(report), capturePending := true, captureCache := Some(cache))
  }

  function Details(low: u16, high: u16): u32 {
    low + 0x1_0000 * high as int
  }

  /** A CAPTURE_ONCE that reaches the capture. */
  predicate Asked(a: App, m: D.CaptureOnce, w: seq<byte>) {
    Valid(a) && a.hello && D.EncodeCaptureOnce(m) == Some(w) && NewCapture(a, m.requestId) && CaptureReady(a) &&
    Names(a, m.sha, m.crc)
  }

  lemma AskedRuns(env: Env, a: App, t: Trace, m: D.CaptureOnce, w: seq<byte>, sequence: u32)
    requires Asked(a, m, w)
    ensures var request := F.Frame(F.CAPTURE_ONCE, sequence, w, 0);
            |w| == 60 && w[..16] == m.requestId && w[52] == m.trigger && U32At(w, 56) == m.timeout &&
            P.Acceptable(request) && Handle(env, a, t, request) == RunCapture(env, a, t, request)
  {
    CaptureReads(m, w);
    hide RunCapture, Error, U32At, Valid, D.EncodeCaptureOnce;
    TriggersAllowed(m, w);
  }

  lemma TriggersAllowed(m: D.CaptureOnce, w: seq<byte>)
    requires D.EncodeCaptureOnce(m) == Some(w)
    ensures m.trigger <= 2 && (m.trigger != 1 ==> m.timeout == 0)
  {
  }

  /** A profile that cannot be applied. */
  lemma ApplyFailed(env: Env, a: App, t: Trace, m: D.CaptureOnce, w: seq<byte>, sequence: u32)
    requires Asked(a, m, w) && Applied(env, t, a).answer.result != T.Ok
    ensures var request := F.Frame(F.CAPTURE_ONCE, sequence, w, 0);
            var applied := Applied(env, t, a);
            P.Acceptable(request) &&
            var s := Handle(env, a, t, request);
            s.app == a && s.trace == t + [applied] + [Issue(env, t + [applied], ForceSafe)] &&
            ReadsError(s.response, m.requestId, F.CAPTURE_ONCE, a,
                       if applied.answer.result == T.VdrvTimeout then VDRV_NOT_READY
                       else if applied.answer.result == T.WrongIdentity then UNSUPPORTED_HARDWARE
                       else if applied.answer.result == T.InvalidProfile then UNSAFE_CONFIG
                       else TUSS_DRIVER_FAULT,
                       applied.answer.devStat, 0)
  {
    var request := F.Frame(F.CAPTURE_ONCE, sequence, w, 0);
    AskedRuns(env, a, t, m, w, sequence);
    var applied := Applied(env, t, a);
    ErrorRead(a, request, MapConfigError(applied.answer.result), applied.answer.devStat, 0);
    ErrorType(a, request);
    hide Handle, Error, Ack, D.DecodeError, Asked, P.Acceptable, U32At;
  }

  /** After a profile that was applied, one capture is made and the hardware is made safe. The request is
      acknowledged exactly when the capture is usable and the hardware is safe; the capture is then
      held under this request and the next number. Otherwise nothing is held, and the host is told whether
      synchronisation, the driver or the acquisition failed, with the diagnosis. */
  lemma CaptureOutcome(env: Env, a: App, t: Trace, m: D.CaptureOnce, w: seq<byte>, sequence: u32)
    requires Asked(a, m, w) && Applied(env, t, a).answer.result == T.Ok
    ensures var request := F.Frame(F.CAPTURE_ONCE, sequence, w, 0);
            P.Acceptable(request) &&
            var s := Handle(env, a, t, request);
            var taken := Taken(env, t, a, m.trigger, m.timeout, false).answer;
            var r := taken.report;
            var done := Usable(taken, a.config.pretrigger) && MadeSafe(s.trace);
            s.trace == Calls(env, t, a, m.trigger, m.timeout, false) && |w| == 60 &&
            (done ==>
              s.response.messageType == F.ACK &&
              s.app == Holding(a, m.requestId, sequence, r, Remember(request, s.response))) &&
            (!done ==>
              s.app == a &&
              ReadsError(s.response, m.requestId, F.CAPTURE_ONCE, a,
                         if r.syncTimedOut then SYNC_TIMEOUT
                         else if r.hardwareFault || !MadeSafe(s.trace) then TUSS_DRIVER_FAULT
                         else ADC_DMA_TIMEOUT,
                         Details(r.captured, r.diagnosticFlags), Details(r.dmaRemaining, r.diagnosticTick)))
  {
    AskedRuns(env, a, t, m, w, sequence);
    RunOutcome(env, a, t, F.Frame(F.CAPTURE_ONCE, sequence, w, 0));
    hide Handle, RunCapture, Asked, P.Acceptable, U32At, Remember, ReadsError;
  }

  lemma RunOutcome(env: Env, a: App, t: Trace, request: F.Frame)
    requires |request.payload| == 60 && Applied(env, t, a).answer.result == T.Ok && request.messageType == F.CAPTURE_ONCE
    ensures var s := RunCapture(env, a, t, request);
            var taken := Taken(env, t, a, request.payload[52], U32At(request.payload, 56), false).answer;
            var r := taken.report;
            var done := Usable(taken, a.config.pretrigger) && MadeSafe(s.trace);
            s.trace == Calls(env, t, a, request.payload[52], U32At(request.payload, 56), false) &&
            (done ==>
              s.response.messageType == F.ACK &&
              s.app == Holding(a, request.payload[..16], request.sequence, r, Remember(request, s.response))) &&
            (!done ==>
              s.app == a &&
              ReadsError(s.response, request.payload[..16], F.CAPTURE_ONCE, a,
                         if r.syncTimedOut then SYNC_TIMEOUT
                         else if r.hardwareFault || !MadeSafe(s.trace) then TUSS_DRIVER_FAULT
                         else ADC_DMA_TIMEOUT,
                         Details(r.captured, r.diagnosticFlags), Details(r.dmaRemaining, r.diagnosticTick)))
  {
    hide U32At, D.DecodeError, Le32, Crc, Crc32.Checksum;
    var u := t + [Applied(env, t, a)];
    var taken := Taken(env, t, a, request.payload[52], U32At(request.payload, 56), false);
    assert u + [taken] == t + [Applied(env, t, a), taken];
    var safe := Issue(env, u + [taken], ForceSafe);
    assert u + [taken, safe] == u + [taken] + [safe];
    var r := taken.answer.report;
    forall code: u16 ensures ReadsError(Error(a, request, code, Details(r.captured, r.diagnosticFlags),
                                              Details(r.dmaRemaining, r.diagnosticTick)),
                                        request.payload[..16], F.CAPTURE_ONCE, a, code,
                                        Details(r.captured, r.diagnosticFlags), Details(r.dmaRemaining, r.diagnosticTick))
    {
      ErrorRead(a, request, code, Details(r.captured, r.diagnosticFlags), Details(r.dmaRemaining, r.diagnosticTick));
      ErrorType(a, request);
    }
    hide Error, ReadsError;
  }

  // ---------------------------------------------------------------- periodic captures

  /** A capture of the schedule is owed and may be made now. */
  predicate Owed(a: App) {
    a.periodic.active && a.periodic.due && a.clockFaults == 0 && !a.capturePending
  }

  /** Whenever a capture is owed the profile is applied, and then exactly one capture is made; a usable one is
      held under the schedule's request and the next number and counts as completed, and the schedule ends
      with its last capture. When none is owed nothing happens. */
  lemma PeriodicOutcome(env: Env, a: App, t: Trace)
    requires Valid(a)
    ensures var (b, u) := RunPeriodic(env, a, t);
            var applied := Applied(env, t, a);
            (!Owed(a) ==> b == a && u == t) &&
            (Owed(a) && applied.answer.result != T.Ok ==>
              u == t + [applied] + [Issue(env, t + [applied], ForceSafe)] && !b.capturePending) &&
            (Owed(a) && applied.answer.result == T.Ok ==>
              var taken := Taken(env, t, a, 0, 0, true).answer;
              var completed := S.Wrap(a.periodic.completed + 1);
              var last := a.periodic.limit != 0 && completed >= a.periodic.limit;
              u == Calls(env, t, a, 0, 0, true) &&
              (b.capturePending <==> Usable(taken, a.config.pretrigger)) &&
              (b.capturePending ==>
                b.captureReport == Some(taken.report) && b.captureRequestId == a.periodicRequestId &&
                b.captureScheduleId == a.periodic.id && b.captureAsync && b.lastDevStat == taken.report.devStat &&
                b.captureSequence == NextSequence(a.captureSequence) && b.captureRequestSequence == b.captureSequence &&
                b.config == a.config && b.bootId == a.bootId && b.deviceId == a.deviceId && b.lastError == 0 &&
                b.periodic.completed == completed && !b.periodic.due && (b.periodic.active <==> !last) &&
                b.periodic.id == if last then S.NO_ID else a.periodic.id))
  {
    hide S.Wrap;
    var u := t + [Applied(env, t, a)];
    var taken := Taken(env, t, a, 0, 0, true);
    assert u + [taken] == t + [Applied(env, t, a), taken];
    var safe := Issue(env, u + [taken], ForceSafe);
    assert u + [taken, safe] == u + [taken] + [safe];
  }

  // ---------------------------------------------------------------- the frame that follows

  /** The mark for an uncalibrated clock, set in the reported quality. */
  function Uncalibrated(quality: u32): u32 {
    if quality / 32 % 2 == 1 then quality
    else
      assert quality == 64 * (quality / 64) + quality % 64;
      quality + 32
  }

  /** initialize_pending_capture_stream. */
  function DescriptorOf(a: App): CS.Descriptor
    requires a.captureReport.Some?
  {
    var r := a.captureReport.value;
    CS.Descriptor(
      a.captureRequestId, a.captureScheduleId, a.bootId, a.deviceId, a.config.sha, a.config.crc,
      a.captureRequestSequence, a.captureSequence, a.captureAsync, a.config.interval, a.config.burst, a.config.pretrigger,
      r.devStat, if Pr.And(a.config.auxFlags, 0x01) != 0 then r.out3Level else 0xFF,
      if Pr.And(a.config.auxFlags, 0x02) != 0 then r.out4Level else 0xFF, Uncalibrated(r.qualityFlags), r.events,
      a.config.registers)
  }

  /** The events the board may report. */
  predicate EventsValid(r: Report, interval: u16) {
    |r.events| <= 17 && forall i :: 0 <= i < |r.events| ==> CD.EventValid(r.events[i], interval)
  }

  /** What the host decodes from the frame the firmware sends for the capture it holds. */
  predicate FrameReads(env: Env, a: App, samples: seq<u16>, c: CD.CaptureData, sequence: u32, flags: u16)
    requires |samples| == CS.SAMPLE_COUNT && a.captureReport.Some? && CS.Fits(DescriptorOf(a))
  {
    var f := CS.FrameOf(env.sha, DescriptorOf(a), samples);
    F.Permitted(f) && F.DecodeFrame(CS.WireBytes(env.sha, DescriptorOf(a), samples)) == F.Accepted(f) &&
    f.sequence == sequence && f.flags == flags && CD.Decode(f.payload) == Some(c)
  }

  lemma ConfigMakesDescriptor(env: Env, a: App)
    requires Valid(a) && CI.Encodes(env, a) && a.configValid && a.captureReport.Some?
    requires EventsValid(a.captureReport.value, a.config.interval)
    ensures CS.Fits(DescriptorOf(a)) && CS.DescriptorValid(DescriptorOf(a))
  {
    hide Pr.And, C.Canonical, C.Wire, Crc32.Checksum, CD.EventValid, Uncalibrated;
    C.FirmwareImpliesHost(a.config);
  }

  /** The capture held by a device whose configuration encodes is a frame the host decodes. */
  lemma HeldFrameReads(env: Env, a: App, samples: seq<u16>)
    requires Valid(a) && CI.Encodes(env, a) && a.configValid && a.captureReport.Some? && |samples| == CS.SAMPLE_COUNT
    requires EventsValid(a.captureReport.value, a.config.interval)
    ensures CS.Fits(DescriptorOf(a)) &&
            FrameReads(env, a, samples, CS.CaptureOf(env.sha, DescriptorOf(a), samples), a.captureRequestSequence,
                       if a.captureAsync then F.ASYNC else F.RESPONSE)
  {
    ConfigMakesDescriptor(env, a);
    CS.WaveformDelivered(env.sha, DescriptorOf(a), samples);
    hide DescriptorOf, CS.WireBytes, CS.MetadataSegment, CS.CaptureOf, CS.DescriptorValid, CD.Decode, F.DecodeFrame, F.Permitted;
    SequenceAndFlags(a);
  }

  lemma SequenceAndFlags(a: App)
    requires a.captureReport.Some?
    ensures DescriptorOf(a).frameSequence == a.captureRequestSequence && DescriptorOf(a).async == a.captureAsync
  {
  }

  /** The frame says which capture it is. */
  predicate Identifies(c: CD.CaptureData, a: App, requestId: Id16, scheduleId: Id16, samples: seq<u16>) {
    c.requestId == requestId && c.scheduleId == scheduleId && c.bootId == a.bootId && c.deviceId == a.deviceId &&
    c.profile == a.config.sha && c.configCrc == a.config.crc && c.captureSequence == NextSequence(a.captureSequence) &&
    c.sampleInterval == a.config.interval && c.burstPeriod == a.config.burst &&
    c.pretriggerCount == a.config.pretrigger && c.registers == a.config.registers && c.samples == samples &&
    c.sampleCount == |samples| && c.adcBits == 12 && c.triggerOffset == a.config.pretrigger * a.config.interval &&
    c.adcHoldOffset as int + c.triggerOffset == 0
  }

  /** And what the board measured with it; a level is told only for an output that is monitored. */
  predicate Measured(c: CD.CaptureData, a: App, r: Report) {
    c.devStat == r.devStat && c.events == r.events && c.qualityFlags == Uncalibrated(r.qualityFlags) &&
    c.out3Level == (if Pr.And(a.config.auxFlags, 0x01) != 0 then r.out3Level else 0xFF) &&
    c.out4Level == (if Pr.And(a.config.auxFlags, 0x02) != 0 then r.out4Level else 0xFF)
  }

  lemma DescribedIs(sha: CS.Sha, a: App, samples: seq<u16>)
    requires a.captureReport.Some? && a.config.pretrigger < 2048
    ensures var c := CS.CaptureOf(sha, DescriptorOf(a), samples);
            c.requestId == a.captureRequestId && c.scheduleId == a.captureScheduleId && c.bootId == a.bootId &&
            c.deviceId == a.deviceId && c.profile == a.config.sha && c.configCrc == a.config.crc &&
            c.captureSequence == a.captureSequence && c.sampleInterval == a.config.interval &&
            c.burstPeriod == a.config.burst && c.pretriggerCount == a.config.pretrigger &&
            c.registers == a.config.registers && c.samples == samples && c.sampleCount == CS.SAMPLE_COUNT && c.adcBits == 12 &&
            c.triggerOffset == a.config.pretrigger * a.config.interval && c.adcHoldOffset as int + c.triggerOffset == 0 && Measured(c, a, a.captureReport.value)
  {
    TriggerSmall(DescriptorOf(a));
    hide Pr.And, Uncalibrated, CS.TriggerTicks;
  }

  lemma TriggerSmall(d: CS.Descriptor)
    requires d.pretrigger < 2048
    ensures CS.TriggerTicks(d) == d.pretrigger * d.sampleInterval && CS.TriggerTicks(d) < 0x8000_0000
    ensures CS.Signed(CS.Negated(CS.TriggerTicks(d))) as int + CS.TriggerTicks(d) == 0
  {
    CS.ProductBelow(d.sampleInterval, d.pretrigger, 2047);
    assert d.pretrigger * d.sampleInterval == d.sampleInterval * d.pretrigger;
  }

  lemma HoldingKeeps(env: Env, a: App, requestId: Id16, sequence: u32, report: Report, cache: Cache)
    requires Valid(a) && CI.Encodes(env, a)
    ensures var b := Holding(a, requestId, sequence, report, cache);
            Valid(b) && CI.Encodes(env, b) && b.captureReport == Some(report) && b.captureRequestId == requestId &&
            b.captureScheduleId == S.NO_ID && b.captureRequestSequence == sequence && !b.captureAsync &&
            b.captureSequence == NextSequence(a.captureSequence) && b.config == a.config && b.bootId == a.bootId &&
            b.deviceId == a.deviceId && b.configValid == a.configValid
  {
    hide C.FirmwareEncode;
  }

  lemma AskedFacts(a: App, m: D.CaptureOnce, w: seq<byte>)
    requires Asked(a, m, w)
    ensures Valid(a) && a.configValid && Names(a, m.sha, m.crc)
  {
  }

  /** capture_once, end to end: when the request is acknowledged, the frame the device sends for it is a
      response under the request's own sequence number, and the host decodes from it the request's
      identifier, the configuration it named and exactly the samples. */
  lemma SingleFrameSent(env: Env, a: App, t: Trace, m: D.CaptureOnce, w: seq<byte>, sequence: u32, samples: seq<u16>)
    requires Asked(a, m, w) && CI.Encodes(env, a) && Applied(env, t, a).answer.result == T.Ok
    requires |samples| == CS.SAMPLE_COUNT
    requires EventsValid(Taken(env, t, a, m.trigger, m.timeout, false).answer.report, a.config.interval)
    ensures var request := F.Frame(F.CAPTURE_ONCE, sequence, w, 0);
            P.Acceptable(request) &&
            var s := Handle(env, a, t, request);
            s.response.messageType == F.ACK ==>
              var b := s.app;
              Valid(b) && b.capturePending && b.captureReport.Some? && CS.Fits(DescriptorOf(b)) &&
              var c := CS.CaptureOf(env.sha, DescriptorOf(b), samples);
              FrameReads(env, b, samples, c, sequence, F.RESPONSE) && Identifies(c, a, m.requestId, S.NO_ID, samples) &&
              Measured(c, a, Taken(env, t, a, m.trigger, m.timeout, false).answer.report) &&
              c.profile == m.sha && c.configCrc == m.crc
  {
    hide *;
    CaptureOutcome(env, a, t, m, w, sequence);
    AskedFacts(a, m, w);
    var request := F.Frame(F.CAPTURE_ONCE, sequence, w, 0);
    var s := Handle(env, a, t, request);
    var report := Taken(env, t, a, m.trigger, m.timeout, false).answer.report;
    if s.response.messageType == F.ACK {
      NotError(s.response, m.requestId, F.CAPTURE_ONCE, a);
      var cache := Remember(request, s.response);
      HoldingKeeps(env, a, m.requestId, sequence, report, cache);
      HoldingPending(a, m.requestId, sequence, report, cache);
      HeldFrameReads(env, s.app, samples);
      EncodedPretrigger(env, a);
      IdentifiesHeld(env.sha, a, s.app, samples);
      IdentifiesNamed(CS.CaptureOf(env.sha, DescriptorOf(s.app), samples), a, m.requestId, samples);
      NamesAre(a, m);
    }
  }

  lemma NotError(response: F.Frame, requestId: Id16, messageType: byte, a: App)
    requires response.messageType == F.ACK
    ensures forall code, d0, d1 :: !ReadsError(response, requestId, messageType, a, code, d0, d1)
  {
  }

  lemma HoldingPending(a: App, requestId: Id16, sequence: u32, report: Report, cache: Cache)
    ensures Holding(a, requestId, sequence, report, cache).capturePending
  {
  }

  lemma NamesAre(a: App, m: D.CaptureOnce)
    requires Names(a, m.sha, m.crc)
    ensures m.sha == a.config.sha && m.crc == a.config.crc
  {
  }

  lemma IdentifiesNamed(c: CD.CaptureData, a: App, requestId: Id16, samples: seq<u16>)
    requires Identifies(c, a, requestId, S.NO_ID, samples)
    ensures c.profile == a.config.sha && c.configCrc == a.config.crc
  {
  }

  lemma EncodedPretrigger(env: Env, a: App)
    requires Valid(a) && CI.Encodes(env, a) && a.configValid
    ensures a.config.pretrigger < 2048
  {
    hide Pr.And, C.Canonical, Crc32.Checksum, C.Wire;
  }

  lemma IdentifiesHeld(sha: CS.Sha, a: App, b: App, samples: seq<u16>)
    requires b.captureReport.Some? && b.captureSequence == NextSequence(a.captureSequence)
    requires b.config == a.config && b.bootId == a.bootId && b.deviceId == a.deviceId && |samples| == CS.SAMPLE_COUNT
    requires a.config.pretrigger < 2048
    ensures var c := CS.CaptureOf(sha, DescriptorOf(b), samples);
            Identifies(c, a, b.captureRequestId, b.captureScheduleId, samples) && Measured(c, a, b.captureReport.value)
  {
    DescribedIs(sha, b, samples);
    hide DescriptorOf, CS.CaptureOf, Uncalibrated;
  }

  /** And periodically: each capture the schedule makes is sent asynchronously under its own number, and
      the host decodes from it the START's identifier, the schedule and exactly the samples. */
  lemma PeriodicFrameSent(env: Env, a: App, t: Trace, samples: seq<u16>)
    requires Valid(a) && CI.Encodes(env, a) && a.configValid && Owed(a) && |samples| == CS.SAMPLE_COUNT
    requires EventsValid(Taken(env, t, a, 0, 0, true).answer.report, a.config.interval)
    ensures var (b, u) := RunPeriodic(env, a, t);
            b.capturePending ==>
              Valid(b) && b.captureReport.Some? && CS.Fits(DescriptorOf(b)) &&
              var c := CS.CaptureOf(env.sha, DescriptorOf(b), samples);
              FrameReads(env, b, samples, c, NextSequence(a.captureSequence), F.ASYNC) &&
              Identifies(c, a, a.periodicRequestId, a.periodic.id, samples) &&
              Measured(c, a, Taken(env, t, a, 0, 0, true).answer.report)
  {
    hide *;
    PeriodicOutcome(env, a, t);
    PeriodicKeepsConfig(env, a, t);
    var (b, u) := RunPeriodic(env, a, t);
    if b.capturePending {
      HeldFrameReads(env, b, samples);
      EncodedPretrigger(env, a);
      IdentifiesHeld(env.sha, a, b, samples);
    }
  }

  lemma PeriodicKeepsConfig(env: Env, a: App, t: Trace)
    requires Valid(a) && CI.Encodes(env, a)
    ensures var b := RunPeriodic(env, a, t).0; Valid(b) && CI.Encodes(env, b) && b.configValid == a.configValid
  {
    H.NextValid(env, a, t, Periodic);
    RunsPeriodic(env, a, t);
    SameConfig(env, a, t);
    hide RunPeriodic, Next, Valid, C.FirmwareEncode;
  }

  lemma RunsPeriodic(env: Env, a: App, t: Trace)
    requires Valid(a)
    ensures Enabled(Periodic) && Next(env, a, t, Periodic) == RunPeriodic(env, a, t)
  {
    hide RunPeriodic, Valid;
  }

  lemma SameConfig(env: Env, a: App, t: Trace)
    requires Valid(a)
    ensures var b := RunPeriodic(env, a, t).0; b.config == a.config && b.configValid == a.configValid
  {
    hide S.Stop, S.Claim, Complete, Valid;
  }

  // ---------------------------------------------------------------- capture numbers

  /** The number after n more captures. */
  function Later(sequence: u32, n: nat): u32
    decreases n
  {
    if n == 0 then sequence else Later(NextSequence(sequence), n - 1)
  }

  /** Numbers go through 1 .. 0xFFFFFFFF in turn and never become zero, so no two of that many captures
      in a row have the same number. */
  lemma {:induction false} NumbersDiffer(sequence: u32, n: nat)
    requires 0 < n < 0xFFFF_FFFF
    ensures Later(sequence, n) != 0 && Later(sequence, n) != sequence
    ensures Later(sequence, n) == (if sequence as int + n > 0xFFFF_FFFF then sequence + n - 0xFFFF_FFFF else sequence + n)
    decreases n
  {
    if n > 1 {
      NumbersDiffer(NextSequence(sequence), n - 1);
    } else {
      assert Later(NextSequence(sequence), 0) == NextSequence(sequence);
    }
  }
}
