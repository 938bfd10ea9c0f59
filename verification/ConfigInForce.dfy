/** The configuration in force: an acknowledged SET_CONFIG is what the device reports, what a
    capture must name and what every capture is made with, until the next one is acknowledged. */
module ConfigInForce {
  import opened Bytes
  import opened Delivery
  import opened FirmwareApp
  import D = DeviceMessages
  import M = MessagesAgree
  import F = Frame
  import C = ConfigV2
  import S = Schedule
  import T = Configurator
  import P = McuParser
  import H = HardwareSafety
  import I = Idempotence
  import ConfigObject
  import Profile
  import Crc32

  // ---------------------------------------------------------------- one SET_CONFIG

  /** A SET_CONFIG that reaches its handler under an identifier the cache does not hold. */
  predicate NewSet(a: App, request: F.Frame) {
    I.Dispatched(a, request, F.SET_CONFIG) && !(a.setCache.Some? && SameId(a.setCache.value, request))
  }

  function CurrentSha(a: App): Hash32 {
    if a.configValid then a.config.sha else Zeros(32)
  }

  lemma {:induction false} MismatchFinds(expected: seq<byte>, current: seq<byte>, i: nat)
    requires |expected| == |current| == 32 && i <= 32 && expected[..i] == current[..i]
    ensures Mismatch(expected, current, i) <= 32
    ensures Mismatch(expected, current, i) == 32 <==> expected == current
    decreases 32 - i
  {
    if i < 32 && expected[i] == current[i] {
      assert expected[..i + 1] == expected[..i] + [expected[i]] && current[..i + 1] == current[..i] + [current[i]];
      MismatchFinds(expected, current, i + 1);
    } else if i == 32 {
      assert expected[..32] == expected && current[..32] == current;
    }
  }

  /** The request names the configuration in force, its bytes decode, and the hardware took them. */
  predicate SetSucceeds(env: Env, a: App, t: Trace, request: F.Frame)
    requires |request.payload| == 120
  {
    request.payload[16..48] == CurrentSha(a) && C.FirmwareDecode(env.sha, request.payload[48..120]).Ok? &&
    env.hardware(t, Apply(ProfileOf(C.FirmwareDecode(env.sha, request.payload[48..120]).value))).result == T.Ok
  }

  /** The device status that was read while this configuration was applied. */
  function SampledStatus(env: Env, t: Trace, a: App): byte {
    env.hardware(t, Apply(ProfileOf(a.config))).devStat
  }

  lemma ExecuteSucceeds(env: Env, a: App, t: Trace, request: F.Frame)
    requires |request.payload| == 120 && SetSucceeds(env, a, t, request)
    ensures var s := ExecuteSetConfig(env, a, t, request);
            C.FirmwareDecode(env.sha, request.payload[48..120]) == C.Ok(s.app.config) && s.app.configValid &&
            s.app.captureCache.None? && s.app.loopbackCache.None? && s.app.lastDevStat == SampledStatus(env, t, s.app) &&
            s.app.state == IdleSafe && s.response == Ack(s.app, request) && s.app.hello == a.hello
  {
    var candidate := C.FirmwareDecode(env.sha, request.payload[48..120]).value;
    ConfiguredIs(a, candidate, env.hardware(t, Apply(ProfileOf(candidate))).devStat);
    ExecuteConfigures(env, a, t, request, candidate);
    hide ExecuteSetConfig, Configured, Ack, C.FirmwareDecode, ProfileOf;
  }

  lemma ConfiguredIs(a: App, candidate: C.Config, devStat: byte)
    ensures var b := Configured(a, candidate, devStat);
            b.config == candidate && b.configValid && b.captureCache.None? && b.loopbackCache.None? &&
            b.lastDevStat == devStat && b.state == IdleSafe && b.hello == a.hello
  {
  }

  lemma ExecuteConfigures(env: Env, a: App, t: Trace, request: F.Frame, candidate: C.Config)
    requires |request.payload| == 120 && SetSucceeds(env, a, t, request)
    requires C.FirmwareDecode(env.sha, request.payload[48..120]) == C.Ok(candidate)
    ensures var s := ExecuteSetConfig(env, a, t, request);
            s.app == Configured(a, candidate, env.hardware(t, Apply(ProfileOf(candidate))).devStat) &&
            s.response == Ack(s.app, request)
  {
    Matched(a, request);
    hide Error, Ack, C.FirmwareDecode, Mismatch, MapConfigError, ProfileOf, CurrentSha, Configured;
  }

  lemma Matched(a: App, request: F.Frame)
    requires |request.payload| == 120 && request.payload[16..48] == CurrentSha(a)
    ensures Mismatch(request.payload[16..48], if a.configValid then a.config.sha else Zeros(32), 0) == 32
  {
    MismatchFinds(request.payload[16..48], CurrentSha(a), 0);
    hide Mismatch;
  }

  lemma ExecuteFails(env: Env, a: App, t: Trace, request: F.Frame)
    requires |request.payload| == 120 && !SetSucceeds(env, a, t, request)
    ensures var s := ExecuteSetConfig(env, a, t, request);
            s.response.messageType == F.ERROR && s.app.config == a.config &&
            (s.app == a || s.app == a.(configValid := false, state := Fault))
  {
    MismatchFinds(request.payload[16..48], CurrentSha(a), 0);
    M.ErrorType(a, request);
    M.ErrorType(a.(configValid := false, state := Fault), request);
    hide Error, Ack, C.FirmwareDecode, Mismatch, MapConfigError, ProfileOf;
  }

  lemma NewSetExecutes(env: Env, a: App, t: Trace, request: F.Frame)
    requires Valid(a) && NewSet(a, request)
    ensures var s := ExecuteSetConfig(env, a, t, request);
            Handle(env, a, t, request) == s.(app := s.app.(setCache := Some(Remember(request, s.response))))
  {
    hide Valid, ExecuteSetConfig, SameRequest, P.PayloadRule, Remember;
    if a.setCache.Some? {
      SameRequestSameId(a.setCache.value, request);
    }
  }

  lemma SameRequestSameId(c: Cache, request: F.Frame)
    requires |request.payload| >= 16
    ensures SameRequest(c, request) ==> SameId(c, request)
  {
    hide Crc32.Checksum;
  }

  /** A new SET_CONFIG is acknowledged exactly when it succeeds. Then its bytes are the
      configuration in force and the host reads the checksum they carry from the ACK; otherwise the
      configuration is the old one, and it is unusable if the device is now in Fault. A success also
      forgets the answers given under the old configuration, and the status sampled is the new one's. */
  lemma AcknowledgedIsInForce(env: Env, a: App, t: Trace, request: F.Frame)
    requires Valid(a) && NewSet(a, request)
    ensures var s := Handle(env, a, t, request);
            (s.response.messageType == F.ACK <==> SetSucceeds(env, a, t, request)) &&
            (s.response.messageType == F.ACK ==>
              C.FirmwareDecode(env.sha, request.payload[48..120]) == C.Ok(s.app.config) && s.app.configValid &&
              s.app.state == IdleSafe && s.app.hello &&
              s.app.captureCache.None? && s.app.loopbackCache.None? && s.app.lastDevStat == SampledStatus(env, t, s.app) &&
              D.DecodeAck(s.response.payload) ==
                Some(D.Acknowledged(request.payload[..16], F.SET_CONFIG, StateCode(IdleSafe), s.app.config.crc))) &&
            (s.response.messageType != F.ACK ==>
              s.app.config == a.config &&
              ((s.app.configValid == a.configValid && s.app.state == a.state) ||
               (!s.app.configValid && s.app.state == Fault)))
  {
    NewSetExecutes(env, a, t, request);
    if SetSucceeds(env, a, t, request) {
      ExecuteSucceeds(env, a, t, request);
    } else {
      ExecuteFails(env, a, t, request);
    }
    var s := ExecuteSetConfig(env, a, t, request);
    M.AckRead(s.app, request);
    hide Handle, ExecuteSetConfig, SetSucceeds, C.FirmwareDecode, Valid, P.PayloadRule, D.DecodeAck, Remember;
  }

  // ---------------------------------------------------------------- reading it back

  /** GET_CONFIG answers with the bytes the configuration in force was decoded from. */
  lemma GetConfigAnswers(env: Env, a: App, t: Trace, wire: seq<byte>, sequence: u32)
    requires C.FirmwareDecode(env.sha, wire) == C.Ok(a.config)
    ensures var request := M.Ask(F.GET_CONFIG, sequence);
            P.Acceptable(request) &&
            (Valid(a) && a.hello && a.configValid ==>
              Handle(env, a, t, request) == Step(a, t, Respond(request, F.GET_CONFIG, wire)))
  {
    C.FirmwareInverse(env.sha, a.config, wire);
    hide Valid, C.FirmwareDecode, C.FirmwareEncode;
  }

  // ---------------------------------------------------------------- whole runs

  predicate Reconfigures(env: Env, a: App, t: Trace, x: Action)
    requires Valid(a) && Enabled(x)
  {
    x.Receive? && NewSet(a, x.request) && Handle(env, a, t, x.request).response.messageType == F.ACK
  }

  /** No new configuration is acknowledged along the way; any number may be sent and refused. */
  predicate NoReconfiguration(env: Env, a: App, t: Trace, xs: seq<Action>)
    requires Valid(a) && H.AllEnabled(xs)
    decreases |xs|
  {
    xs == [] ||
    (!Reconfigures(env, a, t, xs[0]) &&
     (H.NextValid(env, a, t, xs[0]);
      NoReconfiguration(env, Next(env, a, t, xs[0]).0, Next(env, a, t, xs[0]).1, xs[1..])))
  }

  /** Every capture among these calls is made with this configuration. */
  predicate CapturesWith(n: Trace, config: C.Config) {
    forall i :: 0 <= i < |n| ==> n[i].call.Capture? ==> n[i].call.config == config
  }

  /** The step added calls, whose captures carry the configuration in force, and did not change
      it; it became unusable only together with the device entering Fault. */
  predicate ConfigKept(a: App, t: Trace, b: App, u: Trace) {
    t <= u && CapturesWith(u[|t|..], a.config) && b.config == a.config && (b.configValid ==> a.configValid) &&
    (a.configValid && a.state != Fault ==> (b.configValid <==> b.state != Fault))
  }

  lemma SetKeeps(env: Env, a: App, t: Trace, request: F.Frame)
    requires Valid(a) && P.Acceptable(request) && I.Dispatched(a, request, F.SET_CONFIG)
    requires !(NewSet(a, request) && Handle(env, a, t, request).response.messageType == F.ACK)
    ensures var s := Handle(env, a, t, request); ConfigKept(a, t, s.app, s.trace)
  {
    SetCalls(env, a, t, request);
    if NewSet(a, request) {
      AcknowledgedIsInForce(env, a, t, request);
    } else {
      hide ExecuteSetConfig, SameRequest, Error, Valid, P.PayloadRule;
    }
    hide Handle, SetSucceeds, Valid;
  }

  lemma SetCalls(env: Env, a: App, t: Trace, request: F.Frame)
    requires Valid(a) && I.Dispatched(a, request, F.SET_CONFIG)
    ensures var s := Handle(env, a, t, request); t <= s.trace && CapturesWith(s.trace[|t|..], a.config)
  {
    hide Error, Ack, Mismatch, C.FirmwareDecode, SameRequest, SameId, Remember, Valid, P.PayloadRule, MapConfigError;
    var u := Handle(env, a, t, request).trace;
    assert u == t || (t <= u && |u| == |t| + 1 && u[|t|].call.Apply?);
  }

  lemma HelloKeeps(env: Env, a: App, t: Trace, request: F.Frame)
    requires |request.payload| >= 16
    ensures var s := HandleHello(env, a, t, request); ConfigKept(a, t, s.app, s.trace)
    ensures var (b, u) := EndSession(env, a, t); ConfigKept(a, t, b, u)
  {
    hide Le16, Le32, Respond;
  }

  lemma LoopbackKeeps(env: Env, a: App, t: Trace, request: F.Frame)
    requires |request.payload| == 56
    ensures var s := HandleLoopback(env, a, t, request); ConfigKept(a, t, s.app, s.trace)
  {
    hide Error, U32At, Respond, BaselineConfig, SameRequest, SameId, Le16, Le32, Remember;
  }

  lemma CaptureKeeps(env: Env, a: App, t: Trace, request: F.Frame)
    requires |request.payload| == 60
    ensures var s := HandleCaptureOnce(env, a, t, request); ConfigKept(a, t, s.app, s.trace)
  {
    hide Error, Ack, U32At, SameRequest, SameId, Remember, Complete, TriggerUnsafe, MapConfigError, CaptureErrorCode;
  }

  lemma ScheduleKeeps(env: Env, a: App, t: Trace, request: F.Frame)
    requires Valid(a)
    ensures |request.payload| == 80 ==> var s := HandleStart(a, t, request); ConfigKept(a, t, s.app, s.trace)
    ensures |request.payload| == 40 ==> var s := HandleRenew(a, t, request); ConfigKept(a, t, s.app, s.trace)
    ensures |request.payload| == 32 ==> var s := HandleStop(env, a, t, request); ConfigKept(a, t, s.app, s.trace)
  {
    hide Error, Ack, U32At, Respond, S.Start, S.Renew, S.Stop, S.LeaseRemainingMs, Le32, Valid;
  }

  lemma TimeKeeps(env: Env, a: App, t: Trace, us: u32, faults: u16)
    requires Valid(a)
    ensures var (b, u) := AdvanceTime(env, a, t, us); ConfigKept(a, t, b, u)
    ensures var (b, u) := UpdateClockFaults(env, a, t, faults); ConfigKept(a, t, b, u)
    ensures var (b, u) := RunPeriodic(env, a, t); ConfigKept(a, t, b, u)
  {
    hide S.Advance, S.Stop, S.Claim, Complete, Valid;
  }

  lemma NothingKeeps(a: App, t: Trace)
    ensures ConfigKept(a, t, a, t) && ConfigKept(a, t, a.(capturePending := false), t)
  {
  }

  lemma HandleKeeps(env: Env, a: App, t: Trace, request: F.Frame)
    requires Valid(a) && P.Acceptable(request) && !Reconfigures(env, a, t, Receive(request))
    ensures var s := Handle(env, a, t, request); ConfigKept(a, t, s.app, s.trace)
  {
    hide HandleHello, HandleSetConfig, HandleLoopback, HandleCaptureOnce, HandleStart, HandleRenew, HandleStop,
      HandleGetConfig, HandleGetStatus, HandleGetCapabilities, Error, P.PayloadRule, ConfigKept, Valid;
    NothingKeeps(a, t);
    H.ReadersChangeNothing(env, a, t, request);
    var kind := request.messageType;
    if request.flags == 0 {
      if kind == F.HELLO {
        HelloKeeps(env, a, t, request);
      } else if a.hello {
        if kind == F.SET_CONFIG {
          SetKeeps(env, a, t, request);
        } else if kind == F.RUN_IO2_LOOPBACK_TEST {
          LoopbackKeeps(env, a, t, request);
        } else if kind == F.CAPTURE_ONCE {
          CaptureKeeps(env, a, t, request);
        } else if kind == F.START_PERIODIC || kind == F.RENEW_PERIODIC_LEASE || kind == F.STOP {
          ScheduleKeeps(env, a, t, request);
        }
      }
    }
  }

  lemma NextKeeps(env: Env, a: App, t: Trace, x: Action)
    requires Valid(a) && Enabled(x) && !Reconfigures(env, a, t, x)
    ensures var (b, u) := Next(env, a, t, x); ConfigKept(a, t, b, u)
  {
    hide Handle, AdvanceTime, UpdateClockFaults, RunPeriodic, EndSession, P.Acceptable, Valid, ConfigKept, NewSet;
    match x
    case Receive(request) => HandleKeeps(env, a, t, request);
    case Elapse(us) => TimeKeeps(env, a, t, us, 0);
    case Clock(faults) => TimeKeeps(env, a, t, 0, faults);
    case Periodic => TimeKeeps(env, a, t, 0, 0);
    case SessionLost => HelloKeeps(env, a, t, F.Frame(F.HELLO, 0, Zeros(16), 0));
    case FrameSent => NothingKeeps(a, t);
  }

  lemma KeptJoins(a: App, t: Trace, b: App, u: Trace, c: App, v: Trace)
    requires ConfigKept(a, t, b, u) && t <= u && u <= v && CapturesWith(v[|u|..], b.config)
    ensures t <= v && CapturesWith(v[|t|..], a.config)
  {
    forall i | 0 <= i < |v| - |t| && v[|t|..][i].call.Capture? ensures v[|t|..][i].call.config == a.config {
      if i < |u| - |t| {
        assert v[|t|..][i] == u[|t|..][i];
      } else {
        assert v[|t|..][i] == v[|u|..][i - (|u| - |t|)];
      }
    }
  }

  /** Until a new configuration is acknowledged, whatever else happens, the configuration stays and
      every capture call carries it. */
  lemma {:induction false} ConfigStays(env: Env, a: App, t: Trace, xs: seq<Action>)
    requires Valid(a) && H.AllEnabled(xs) && NoReconfiguration(env, a, t, xs)
    ensures var (b, u) := H.Run(env, a, t, xs);
            Valid(b) && t <= u && CapturesWith(u[|t|..], a.config) && b.config == a.config && (b.configValid ==> a.configValid)
    decreases |xs|
  {
    hide Next, Valid, Enabled, H.AllEnabled, CapturesWith, Reconfigures;
    if xs == [] {
      NothingKeeps(a, t);
    } else {
      H.EnabledTail(xs);
      H.NextValid(env, a, t, xs[0]);
      NextKeeps(env, a, t, xs[0]);
      var (b, u) := Next(env, a, t, xs[0]);
      ConfigStays(env, b, u, xs[1..]);
      var (c, v) := H.Run(env, b, u, xs[1..]);
      KeptJoins(a, t, b, u, c, v);
    }
  }

  /** An acknowledged SET_CONFIG rules every later moment until the next one is acknowledged: all
      captures are made with the configuration its bytes spell, and while the configuration is
      usable GET_CONFIG answers with exactly these bytes. */
  lemma AcknowledgedStaysInForce(env: Env, a: App, t: Trace, request: F.Frame, xs: seq<Action>, sequence: u32)
    requires Valid(a) && NewSet(a, request) && Handle(env, a, t, request).response.messageType == F.ACK
    requires H.AllEnabled(xs) && Valid(Handle(env, a, t, request).app)
    requires NoReconfiguration(env, Handle(env, a, t, request).app, Handle(env, a, t, request).trace, xs)
    ensures var s := Handle(env, a, t, request);
            var wire := request.payload[48..120];
            var (b, u) := H.Run(env, s.app, s.trace, xs);
            Valid(b) && C.FirmwareDecode(env.sha, wire) == C.Ok(b.config) && s.trace <= u &&
            CapturesWith(u[|s.trace|..], b.config) &&
            (b.hello && b.configValid ==>
              var ask := M.Ask(F.GET_CONFIG, sequence);
              P.Acceptable(ask) && Handle(env, b, u, ask) == Step(b, u, Respond(ask, F.GET_CONFIG, wire)))
  {
    hide *;
    AcceptedLength(a, request);
    AcknowledgedIsInForce(env, a, t, request);
    var s := Handle(env, a, t, request);
    ConfigStays(env, s.app, s.trace, xs);
    var (b, u) := H.Run(env, s.app, s.trace, xs);
    GetConfigAnswers(env, b, u, request.payload[48..120], sequence);
  }

  lemma AcceptedLength(a: App, request: F.Frame)
    requires NewSet(a, request)
    ensures |request.payload| == 120 && P.Acceptable(request) && request.messageType == F.SET_CONFIG
  {
  }

  // ---------------------------------------------------------------- the host's side

  lemma SetConfigReads(sha: C.Sha, requestId: Id16, expected: Hash32, c: C.Config, w: seq<byte>)
    requires D.EncodeSetConfig(sha, requestId, expected, c) == Some(w)
    ensures var wire := C.Wire(c);
            C.HostEncode(sha, c) == Some(wire) && |w| == 100 + 2 * |c.registers| && |c.registers| <= 10 &&
            w[..16] == requestId && w[16..48] == expected && w[48..] == wire && w[62] == |c.registers|
  {
    C.WireReads(c);
    hide C.Wire, C.ReadWire;
    assert w == requestId + expected + C.Wire(c);
    assert w[48..] == C.Wire(c);
    assert w[62] == C.Wire(c)[14];
  }

  lemma RegistersMakeStruct(sha: C.Sha, c: C.Config, w: seq<byte>)
    requires C.HostEncode(sha, c) == Some(w)
    ensures C.IsStruct(c) <==> |c.registers| == Profile.REGISTER_COUNT
  {
  }

  /** BridgeDeviceClient.apply_config against the firmware. The request is taken exactly when the
      configuration has ten registers, and acknowledged exactly when it names the configuration in
      force, satisfies the firmware's rules and is applied by the hardware. The host then reads this
      very configuration back, and captures and schedules must name its identifiers. */
  lemma HostConfigApplied(env: Env, a: App, t: Trace, requestId: Id16, expected: Hash32, c: C.Config, w: seq<byte>,
                          sequence: u32)
    requires D.EncodeSetConfig(env.sha, requestId, expected, c) == Some(w)
    ensures var request := F.Frame(F.SET_CONFIG, sequence, w, 0);
            (P.Acceptable(request) <==> |c.registers| == Profile.REGISTER_COUNT) &&
            (NewSet(a, request) && Valid(a) ==>
              var s := Handle(env, a, t, request);
              (s.response.messageType == F.ACK <==>
                expected == CurrentSha(a) && C.IsStruct(c) && C.FirmwareValid(c) &&
                env.hardware(t, Apply(ProfileOf(c))).result == T.Ok) &&
              (s.response.messageType == F.ACK ==>
                D.DecodeAck(s.response.payload) ==
                  Some(D.Acknowledged(requestId, F.SET_CONFIG, StateCode(IdleSafe), c.crc)) &&
                ReadsBack(env, s.app, s.trace, c, sequence) && M.Names(s.app, c.sha, c.crc)))
  {
    hide *;
    var request := F.Frame(F.SET_CONFIG, sequence, w, 0);
    SetConfigReads(env.sha, requestId, expected, c, w);
    RegistersMakeStruct(env.sha, c, C.Wire(c));
    TakenByCount(request);
    if Valid(a) && NewSet(a, request) {
      AcceptedLength(a, request);
      assert w[48..120] == w[48..];
      AcknowledgedIsInForce(env, a, t, request);
      SucceedsForHost(env, a, t, request, c);
      HandleStaysValid(env, a, t, request);
      var s := Handle(env, a, t, request);
      if s.response.messageType == F.ACK {
        HostReads(env, s.app, s.trace, c, sequence);
      }
    }
  }

  lemma SucceedsForHost(env: Env, a: App, t: Trace, request: F.Frame, c: C.Config)
    requires |request.payload| == 120 && C.IsStruct(c) && request.payload[48..120] == C.Wire(c)
    requires C.HostEncode(env.sha, c) == Some(C.Wire(c))
    ensures SetSucceeds(env, a, t, request) <==>
              request.payload[16..48] == CurrentSha(a) && C.FirmwareValid(c) &&
              env.hardware(t, Apply(ProfileOf(c))).result == T.Ok
    ensures C.FirmwareDecode(env.sha, C.Wire(c)).Ok? ==> C.FirmwareDecode(env.sha, C.Wire(c)) == C.Ok(c)
  {
    C.HostConfigTaken(env.sha, c, C.Wire(c));
    DecodedIsWritten(env.sha, c);
    hide C.FirmwareDecode, C.HostEncode, C.Wire, C.FirmwareValid, ProfileOf;
  }

  lemma HandleStaysValid(env: Env, a: App, t: Trace, request: F.Frame)
    requires Valid(a) && P.Acceptable(request)
    ensures Valid(Handle(env, a, t, request).app)
  {
    hide Handle, P.Acceptable, H.Batch, Valid;
    var _ := H.HandleShape(env, a, t, request);
  }

  /** The firmware decodes nothing else from the bytes of a configuration. */
  lemma DecodedIsWritten(sha: C.Sha, c: C.Config)
    requires C.IsStruct(c)
    ensures C.FirmwareDecode(sha, C.Wire(c)).Ok? ==> C.FirmwareDecode(sha, C.Wire(c)) == C.Ok(c)
  {
    C.WireReads(c);
    hide C.Wire, C.FirmwareValid, Crc32.Checksum, C.Canonical;
  }

  lemma TakenByCount(request: F.Frame)
    requires request.messageType == F.SET_CONFIG && request.flags == 0 && |request.payload| >= 100
    requires |request.payload| == 100 + 2 * request.payload[62] as int
    ensures P.Acceptable(request) <==> request.payload[62] == Profile.REGISTER_COUNT
  {
  }

  /** What _read_config returns. */
  predicate ReadsBack(env: Env, a: App, t: Trace, c: C.Config, sequence: u32) {
    var ask := M.Ask(F.GET_CONFIG, sequence);
    Valid(a) && P.Acceptable(ask) && Handle(env, a, t, ask).response.messageType == F.GET_CONFIG &&
    C.HostDecode(env.sha, Handle(env, a, t, ask).response.payload) == Some(c)
  }

  lemma HostReads(env: Env, a: App, t: Trace, c: C.Config, sequence: u32)
    requires Valid(a) && a.hello && a.configValid && a.config == c
    requires C.HostEncode(env.sha, c) == Some(C.Wire(c)) && C.FirmwareDecode(env.sha, C.Wire(c)) == C.Ok(c)
    ensures ReadsBack(env, a, t, c, sequence) && M.Names(a, c.sha, c.crc)
  {
    GetConfigAnswers(env, a, t, C.Wire(c), sequence);
    C.HostInverse(env.sha, c, C.Wire(c));
    hide Handle, C.FirmwareDecode, C.HostEncode, C.HostDecode, C.Wire, Valid;
  }

  // ---------------------------------------------------------------- always readable

  /** A usable configuration has the identifiers and the values the firmware itself accepts. */
  predicate Encodes(env: Env, a: App)
    requires Valid(a)
  {
    a.configValid ==> C.FirmwareEncode(env.sha, a.config, C.WIRE_LENGTH).Ok?
  }

  lemma DecodedEncodes(env: Env, a: App, w: seq<byte>)
    requires Valid(a) && C.FirmwareDecode(env.sha, w) == C.Ok(a.config)
    ensures Encodes(env, a)
  {
    C.FirmwareInverse(env.sha, a.config, w);
  }

  lemma NextEncodes(env: Env, a: App, t: Trace, x: Action)
    requires Valid(a) && Enabled(x) && Encodes(env, a)
    ensures var b := Next(env, a, t, x).0; Valid(b) && Encodes(env, b)
  {
    hide Handle, AdvanceTime, UpdateClockFaults, RunPeriodic, EndSession, P.Acceptable, Valid, NewSet, C.FirmwareEncode,
      C.FirmwareDecode;
    H.NextValid(env, a, t, x);
    if Reconfigures(env, a, t, x) {
      AcknowledgedIsInForce(env, a, t, x.request);
      AcceptedLength(a, x.request);
      DecodedEncodes(env, Next(env, a, t, x).0, x.request.payload[48..120]);
    } else {
      NextKeeps(env, a, t, x);
    }
  }

  lemma {:induction false} RunEncodes(env: Env, a: App, t: Trace, xs: seq<Action>)
    requires Valid(a) && H.AllEnabled(xs) && Encodes(env, a)
    ensures var b := H.Run(env, a, t, xs).0; Valid(b) && Encodes(env, b)
    decreases |xs|
  {
    hide Next, Valid, Enabled, H.AllEnabled, Encodes;
    if xs != [] {
      H.EnabledTail(xs);
      H.NextValid(env, a, t, xs[0]);
      NextEncodes(env, a, t, xs[0]);
      var (b, u) := Next(env, a, t, xs[0]);
      RunEncodes(env, b, u, xs[1..]);
    }
  }

  /** The configuration the firmware boots with is one it accepts. */
  lemma BaselineEncodes(env: Env, a: App)
    requires Valid(a) && a.config == BaselineConfig(env.sha)
    ensures Encodes(env, a)
  {
    var c := C.Config(C.SCHEMA, 120, 2048, 64, 12, 0, 3300, 50, ConfigObject.Baseline(), Zeros(32), 0);
    ConfigObject.BaselineValid(c);
    ConfigObject.RehashedTravels(env.sha, c);
    hide C.FirmwareEncode, ConfigObject.Rehashed;
  }

  /** In every run from a usable configuration that encodes, as after boot and after every
      acknowledged SET_CONFIG, GET_CONFIG is never refused while a configuration is in force, and
      the host reads from it the configuration captures are made with. */
  lemma ConfigAlwaysReadable(env: Env, a: App, t: Trace, xs: seq<Action>, sequence: u32)
    requires Valid(a) && H.AllEnabled(xs) && Encodes(env, a)
    ensures var (b, u) := H.Run(env, a, t, xs);
            Valid(b) && (b.hello && b.configValid ==> ReadsBack(env, b, u, b.config, sequence))
  {
    hide *;
    RunEncodes(env, a, t, xs);
    var (b, u) := H.Run(env, a, t, xs);
    if b.hello && b.configValid {
      EncodedReadsBack(env, b, u, sequence);
    }
  }

  lemma EncodedReadsBack(env: Env, a: App, t: Trace, sequence: u32)
    requires Valid(a) && Encodes(env, a) && a.hello && a.configValid
    ensures ReadsBack(env, a, t, a.config, sequence)
  {
    var w := C.FirmwareEncode(env.sha, a.config, C.WIRE_LENGTH).value;
    C.FirmwareInverse(env.sha, a.config, w);
    GetConfigAnswers(env, a, t, w, sequence);
    C.FirmwareConfigRead(env.sha, a.config, w);
    hide Handle, C.FirmwareEncode, C.FirmwareDecode, C.HostDecode;
  }
}
