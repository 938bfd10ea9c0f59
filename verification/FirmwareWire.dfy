/** The firmware's answers and the host's parser: whatever happened before, every response of the
    dispatcher is a frame the host takes from its stream, and it answers the request it was sent
    for. In the other direction the two length policies agree on every request. */
module FirmwareWire {
  import opened Bytes
  import opened Delivery
  import opened FirmwareApp
  import F = Frame
  import C = ConfigV2
  import S = Schedule
  import P = McuParser
  import H = HardwareSafety
  import HS = HostStream
  import Crc32

  // ---------------------------------------------------------------- answers

  /** The host's parser emits it, and BridgeDeviceClient matches it to a request of this type,
      sequence and identifier: an answer of the same type, or an ACK or ERROR naming the request. */
  predicate AnswersTo(r: F.Frame, messageType: byte, sequence: u32, requestId: seq<byte>) {
    F.Permitted(r) && r.flags == F.RESPONSE && r.sequence == sequence &&
    (r.messageType == messageType || r.messageType == F.ACK || r.messageType == F.ERROR) &&
    (r.messageType == F.ACK || r.messageType == F.ERROR ==>
      |r.payload| >= 17 && r.payload[16] == messageType &&
      (|requestId| == 16 ==> r.payload[..16] == requestId))
  }

  /** The first sixteen bytes of a payload that has them. */
  function RequestId(request: F.Frame): seq<byte> {
    if |request.payload| >= 16 then request.payload[..16] else []
  }

  predicate Answers(r: F.Frame, request: F.Frame) {
    AnswersTo(r, request.messageType, request.sequence, RequestId(request))
  }

  predicate CacheAnswers(c: Option<Cache>, messageType: byte) {
    c.Some? ==> AnswersTo(c.value.response, messageType, c.value.sequence, c.value.requestId)
  }

  /** Each cached response answers the request it was given to. */
  predicate CachesAnswer(a: App) {
    CacheAnswers(a.setCache, F.SET_CONFIG) && CacheAnswers(a.loopbackCache, F.RUN_IO2_LOOPBACK_TEST) &&
    CacheAnswers(a.captureCache, F.CAPTURE_ONCE)
  }

  lemma AckAnswers(a: App, request: F.Frame)
    requires |request.payload| >= 16
    ensures Answers(Ack(a, request), request)
  {
  }

  lemma ErrorAnswers(a: App, request: F.Frame, code: u16, detail0: u32, detail1: u32)
    ensures Answers(Error(a, request, code, detail0, detail1), request)
  {
  }

  /** A response of the request's own type is answered when its length is the one expected. */
  lemma RespondAnswers(request: F.Frame, payload: seq<byte>)
    requires F.IsMessageType(request.messageType) && request.messageType < F.CAPTURE_DATA
    requires F.FlagsValid(request.messageType, F.RESPONSE)
    requires F.LengthValid(request.messageType, F.RESPONSE, |payload|) && |payload| <= F.HOST_MAX_PAYLOAD
    ensures Answers(Respond(request, request.messageType, payload), request)
  {
  }

  // ---------------------------------------------------------------- each handler

  lemma ReadersAnswer(env: Env, a: App, t: Trace, request: F.Frame)
    requires Valid(a)
    ensures request.messageType == F.GET_CAPABILITIES ==> Answers(HandleGetCapabilities(a, t, request).response, request)
    ensures request.messageType == F.GET_STATUS ==> Answers(HandleGetStatus(a, t, request).response, request)
    ensures request.messageType == F.GET_CONFIG ==> Answers(HandleGetConfig(env, a, t, request).response, request)
  {
    hide Answers, Error, C.FirmwareValid, C.Wire, C.Canonical, Crc32.Checksum, S.LeaseRemainingMs, Le16, Le32;
    ErrorAnswers(a, request, INVALID_STATE, 0, 0);
    ErrorAnswers(a, request, INTERNAL, 0, 0);
    C.WireReads(a.config);
    if request.messageType == F.GET_CAPABILITIES {
      RespondAnswers(request, HandleGetCapabilities(a, t, request).response.payload);
    } else if request.messageType == F.GET_STATUS {
      RespondAnswers(request, HandleGetStatus(a, t, request).response.payload);
    } else if request.messageType == F.GET_CONFIG {
      match C.FirmwareEncode(env.sha, a.config, C.WIRE_LENGTH)
      case Ok(wire) => RespondAnswers(request, wire);
      case Err(_) =>
    }
  }

  lemma HelloAnswers(env: Env, a: App, t: Trace, request: F.Frame)
    requires |request.payload| >= 16 && request.messageType == F.HELLO && CachesAnswer(a)
    ensures var s := HandleHello(env, a, t, request); Answers(s.response, request) && CachesAnswer(s.app)
  {
    hide Answers, AnswersTo, Le16, Le32;
    RespondAnswers(request, HandleHello(env, a, t, request).response.payload);
  }

  lemma CachedAnswers(c: Cache, request: F.Frame)
    requires |request.payload| >= 16 && CacheAnswers(Some(c), request.messageType) && SameRequest(c, request)
    ensures Answers(c.response, request)
  {
    hide AnswersTo, Crc32.Checksum;
  }

  lemma Remembered(request: F.Frame, response: F.Frame)
    requires |request.payload| >= 16 && Answers(response, request)
    ensures CacheAnswers(Some(Remember(request, response)), request.messageType)
  {
    hide AnswersTo, Crc32.Checksum;
  }

  lemma ExecuteAnswers(env: Env, a: App, t: Trace, request: F.Frame)
    requires |request.payload| == 120 && CachesAnswer(a)
    ensures var s := ExecuteSetConfig(env, a, t, request); Answers(s.response, request) && CachesAnswer(s.app)
  {
    hide Answers, AnswersTo, Error, Ack, Mismatch, C.FirmwareDecode, Crc32.Checksum, MapConfigError;
    forall b: App ensures Answers(Ack(b, request), request) { AckAnswers(b, request); }
    forall b: App, code: u16, x: u32 ensures Answers(Error(b, request, code, x, 0), request) {
      ErrorAnswers(b, request, code, x, 0);
    }
  }

  lemma SetConfigAnswers(env: Env, a: App, t: Trace, request: F.Frame)
    requires |request.payload| == 120 && request.messageType == F.SET_CONFIG && CachesAnswer(a)
    ensures var s := HandleSetConfig(env, a, t, request); Answers(s.response, request) && CachesAnswer(s.app)
  {
    hide Answers, AnswersTo, Error, ExecuteSetConfig, Remember, SameRequest, SameId;
    ExecuteAnswers(env, a, t, request);
    var s := ExecuteSetConfig(env, a, t, request);
    Remembered(request, s.response);
    if a.setCache.Some? {
      ErrorAnswers(a, request, INVALID_MESSAGE, a.setCache.value.sequence, request.sequence);
      if SameRequest(a.setCache.value, request) {
        CachedAnswers(a.setCache.value, request);
      }
    }
  }

  lemma LoopbackAnswers(env: Env, a: App, t: Trace, request: F.Frame)
    requires |request.payload| == 56 && request.messageType == F.RUN_IO2_LOOPBACK_TEST && CachesAnswer(a)
    ensures var s := HandleLoopback(env, a, t, request); Answers(s.response, request) && CachesAnswer(s.app)
  {
    hide Answers, AnswersTo, Error, Remember, SameRequest, SameId, BaselineConfig, U32At, Le16, Le32, Respond;
    forall code: u16, x: u32 ensures Answers(Error(a, request, code, x, 0), request) {
      ErrorAnswers(a, request, code, x, 0);
    }
    if a.loopbackCache.Some? {
      ErrorAnswers(a, request, INVALID_MESSAGE, a.loopbackCache.value.sequence, request.sequence);
      if SameRequest(a.loopbackCache.value, request) {
        CachedAnswers(a.loopbackCache.value, request);
      }
    }
    var ran := Issue(env, t, Loopback(a.config.burst));
    var payload := request.payload[..16] + a.config.sha + Le32(a.config.crc) + Le16(a.config.burst) + ran.answer.image;
    var response := Respond(request, F.RUN_IO2_LOOPBACK_TEST, payload);
    RespondAnswers(request, payload);
    Remembered(request, response);
  }

  lemma RunCaptureAnswers(env: Env, a: App, t: Trace, request: F.Frame)
    requires |request.payload| == 60 && request.messageType == F.CAPTURE_ONCE && CachesAnswer(a)
    ensures var s := RunCapture(env, a, t, request); Answers(s.response, request) && CachesAnswer(s.app)
  {
    hide Answers, AnswersTo, Error, Ack, Remember, U32At, Complete, CaptureErrorCode, MapConfigError;
    forall code: u16, x: u32, y: u32 ensures Answers(Error(a, request, code, x, y), request) {
      ErrorAnswers(a, request, code, x, y);
    }
    forall b: App ensures Answers(Ack(b, request), request) &&
                          CacheAnswers(Some(Remember(request, Ack(b, request))), request.messageType) {
      AckAnswers(b, request);
      Remembered(request, Ack(b, request));
    }
  }

  lemma CaptureAnswers(env: Env, a: App, t: Trace, request: F.Frame)
    requires |request.payload| == 60 && request.messageType == F.CAPTURE_ONCE && CachesAnswer(a)
    ensures var s := HandleCaptureOnce(env, a, t, request); Answers(s.response, request) && CachesAnswer(s.app)
  {
    hide Answers, AnswersTo, Error, RunCapture, SameRequest, SameId, TriggerUnsafe, U32At;
    RunCaptureAnswers(env, a, t, request);
    forall code: u16, x: u32 ensures Answers(Error(a, request, code, x, 0), request) {
      ErrorAnswers(a, request, code, x, 0);
    }
    if a.captureCache.Some? {
      ErrorAnswers(a, request, INVALID_MESSAGE, a.captureCache.value.sequence, request.sequence);
      if SameRequest(a.captureCache.value, request) {
        CachedAnswers(a.captureCache.value, request);
      }
    }
  }

  lemma StartAnswers(a: App, t: Trace, request: F.Frame)
    requires |request.payload| == 80 && CachesAnswer(a)
    ensures var s := HandleStart(a, t, request); Answers(s.response, request) && CachesAnswer(s.app)
  {
    hide Answers, AnswersTo, Error, Ack, S.Start, U32At;
    forall code: u16 ensures Answers(Error(a, request, code, 0, 0), request) { ErrorAnswers(a, request, code, 0, 0); }
    forall b: App ensures Answers(Ack(b, request), request) { AckAnswers(b, request); }
  }

  lemma RenewAnswers(a: App, t: Trace, request: F.Frame)
    requires Valid(a) && |request.payload| == 40 && request.messageType == F.RENEW_PERIODIC_LEASE && CachesAnswer(a)
    ensures var s := HandleRenew(a, t, request); Answers(s.response, request) && CachesAnswer(s.app)
  {
    hide Answers, AnswersTo, Error, S.Renew, U32At, Respond, S.LeaseRemainingMs, Le32;
    ErrorAnswers(a, request, BOOT_MISMATCH, 0, 0);
    var b := a.(periodic := S.Renew(a.periodic, request.payload[16..32], U32At(request.payload, 32),
                                    U32At(request.payload, 36) % 0x1_0000).0);
    ErrorAnswers(b, request, INVALID_STATE, 0, 0);
    ErrorAnswers(b, request, INVALID_MESSAGE, 0, 0);
    RenewStaysValid(a, request);
    RespondAnswers(request,
      b.bootId + b.periodic.id + Le32(b.periodic.leaseSequence) + Le32(S.LeaseRemainingMs(b.periodic)));
  }

  /** What the lease reports fits its word. */
  lemma RenewStaysValid(a: App, request: F.Frame)
    requires Valid(a) && |request.payload| == 40
    ensures S.LeaseRemainingMs(S.Renew(a.periodic, request.payload[16..32], U32At(request.payload, 32),
                                       U32At(request.payload, 36) % 0x1_0000).0) < 0x1_0000_0000
  {
    hide U32At;
  }

  lemma StopAnswers(env: Env, a: App, t: Trace, request: F.Frame)
    requires |request.payload| == 32 && CachesAnswer(a)
    ensures var s := HandleStop(env, a, t, request); Answers(s.response, request) && CachesAnswer(s.app)
  {
    hide Answers, AnswersTo, Error, Ack, S.Stop;
    ErrorAnswers(a, request, INVALID_STATE, 0, 0);
    forall b: App ensures Answers(Ack(b, request), request) { AckAnswers(b, request); }
  }

  lemma HandleAnswers(env: Env, a: App, t: Trace, request: F.Frame)
    requires Valid(a) && P.Acceptable(request) && CachesAnswer(a)
    ensures var s := Handle(env, a, t, request); Answers(s.response, request) && CachesAnswer(s.app)
  {
    hide HandleHello, HandleSetConfig, HandleLoopback, HandleCaptureOnce, HandleStart, HandleRenew, HandleStop,
      HandleGetConfig, HandleGetStatus, HandleGetCapabilities, Error, P.PayloadRule, Valid, Answers, CachesAnswer;
    ErrorAnswers(a, request, INVALID_MESSAGE, request.flags, 0);
    ErrorAnswers(a, request, INVALID_STATE, 0, 0);
    ErrorAnswers(a, request, UNSUPPORTED_TYPE, 0, 0);
    ReadersAnswer(env, a, t, request);
    H.ReadersChangeNothing(env, a, t, request);
    var kind := request.messageType;
    if request.flags == 0 {
      if kind == F.HELLO {
        HelloAnswers(env, a, t, request);
      } else if kind == F.SET_CONFIG {
        SetConfigAnswers(env, a, t, request);
      } else if kind == F.RUN_IO2_LOOPBACK_TEST {
        LoopbackAnswers(env, a, t, request);
      } else if kind == F.CAPTURE_ONCE {
        CaptureAnswers(env, a, t, request);
      } else if kind == F.START_PERIODIC {
        StartAnswers(a, t, request);
      } else if kind == F.RENEW_PERIODIC_LEASE {
        RenewAnswers(a, t, request);
      } else if kind == F.STOP {
        StopAnswers(env, a, t, request);
      }
    }
  }

  // ---------------------------------------------------------------- whole runs

  lemma TimeKeepsAnswers(env: Env, a: App, t: Trace, us: u32, faults: u16)
    requires Valid(a) && CachesAnswer(a)
    ensures CachesAnswer(AdvanceTime(env, a, t, us).0) && CachesAnswer(UpdateClockFaults(env, a, t, faults).0)
    ensures CachesAnswer(RunPeriodic(env, a, t).0) && CachesAnswer(EndSession(env, a, t).0)
  {
    hide S.Advance, S.Stop, S.Claim, Complete, CacheAnswers;
    assert CacheAnswers(None, F.SET_CONFIG) && CacheAnswers(None, F.CAPTURE_ONCE) &&
           CacheAnswers(None, F.RUN_IO2_LOOPBACK_TEST) by { NothingCached(); }
  }

  lemma NothingCached()
    ensures forall messageType: byte :: CacheAnswers(None, messageType)
  {
  }

  lemma NextAnswers(env: Env, a: App, t: Trace, x: Action)
    requires Valid(a) && Enabled(x) && CachesAnswer(a)
    ensures CachesAnswer(Next(env, a, t, x).0)
  {
    hide Handle, AdvanceTime, UpdateClockFaults, RunPeriodic, EndSession, P.Acceptable, Valid, CacheAnswers, Answers;
    match x
    case Receive(request) => HandleAnswers(env, a, t, request);
    case Elapse(us) => TimeKeepsAnswers(env, a, t, us, 0);
    case Clock(faults) => TimeKeepsAnswers(env, a, t, 0, faults);
    case Periodic => TimeKeepsAnswers(env, a, t, 0, 0);
    case SessionLost => TimeKeepsAnswers(env, a, t, 0, 0);
    case FrameSent =>
  }

  lemma {:induction false} RunAnswers(env: Env, a: App, t: Trace, xs: seq<Action>)
    requires Valid(a) && H.AllEnabled(xs) && CachesAnswer(a)
    ensures var (b, u) := H.Run(env, a, t, xs); Valid(b) && CachesAnswer(b)
    decreases |xs|
  {
    hide Next, Valid, Enabled, H.AllEnabled, CachesAnswer;
    if xs != [] {
      H.EnabledTail(xs);
      H.NextValid(env, a, t, xs[0]);
      NextAnswers(env, a, t, xs[0]);
      var (b, u) := Next(env, a, t, xs[0]);
      RunAnswers(env, b, u, xs[1..]);
    }
  }

  predicate NothingRemembered(a: App) {
    a.setCache.None? && a.loopbackCache.None? && a.captureCache.None?
  }

  /** Whatever the application was asked before, since its caches were last empty, its response
      to the next request is taken whole from the host's stream and answers that request. */
  lemma ResponsesReachHost(env: Env, a: App, t: Trace, xs: seq<Action>, request: F.Frame, rest: seq<byte>)
    requires Valid(a) && NothingRemembered(a) && H.AllEnabled(xs) && P.Acceptable(request)
    ensures var (b, u) := H.Run(env, a, t, xs);
            Valid(b) &&
            var r := Handle(env, b, u, request).response;
            Answers(r, request) && |r.payload| <= F.HOST_MAX_PAYLOAD &&
            HS.At(F.EncodeFrame(r) + rest) == HS.Found(r, |F.EncodeFrame(r)|)
  {
    hide *;
    StartsAnswering(a);
    RunAnswers(env, a, t, xs);
    var (b, u) := H.Run(env, a, t, xs);
    HandleAnswers(env, b, u, request);
    var r := Handle(env, b, u, request).response;
    AnswersArePermitted(r, request);
    HS.EncodedIsFound(r, rest);
  }

  lemma StartsAnswering(a: App)
    requires NothingRemembered(a)
    ensures CachesAnswer(a)
  {
  }

  lemma AnswersArePermitted(r: F.Frame, request: F.Frame)
    requires Answers(r, request)
    ensures F.Permitted(r) && |r.payload| <= F.HOST_MAX_PAYLOAD
  {
  }

  // ---------------------------------------------------------------- requests

  /** The types the dispatcher sends to a handler. */
  predicate HandledType(t: byte) {
    t == F.HELLO || t == F.GET_CAPABILITIES || t == F.GET_CONFIG || t == F.SET_CONFIG || t == F.CAPTURE_ONCE ||
    t == F.START_PERIODIC || t == F.STOP || t == F.GET_STATUS || t == F.RENEW_PERIODIC_LEASE ||
    t == F.RUN_IO2_LOOPBACK_TEST
  }

  /** For requests the two length policies agree, but that the firmware takes SET_CONFIG with ten
      registers only. */
  lemma LengthsAgree(t: byte, n: nat)
    requires HandledType(t)
    ensures P.LengthRule(t, n) <==> F.LengthValid(t, 0, n) && (t == F.SET_CONFIG ==> n == 120)
  {
  }

  /** Every request the firmware hands to a handler is one the host's policy permits. */
  lemma RequestsPermitted(request: F.Frame)
    requires P.Acceptable(request) && request.flags == 0 && HandledType(request.messageType)
    ensures F.Permitted(request)
  {
    hide P.PayloadRule;
  }
}
