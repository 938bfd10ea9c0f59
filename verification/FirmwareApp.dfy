/** The firmware's command dispatcher and periodic runner, with hardware that may answer anything.

    Every call into hardware is recorded, so that safety is a property of the record. */
module FirmwareApp {
  import opened Bytes
  import opened Delivery
  import opened CaptureData
  import opened Profile
  import opened Packing
  import F = Frame
  import C = ConfigV2
  import ConfigObject
  import S = Schedule
  import T = Configurator
  import P = McuParser
  import Crc32

  const INVALID_MESSAGE: u16 := 1
  const UNSUPPORTED_TYPE: u16 := 4
  const INVALID_STATE: u16 := 5
  const CONFIG_MISMATCH: u16 := 6
  const VDRV_NOT_READY: u16 := 9
  const TUSS_DRIVER_FAULT: u16 := 10
  const ADC_DMA_TIMEOUT: u16 := 11
  const INTERNAL: u16 := 15
  const TIMING_UNCALIBRATED: u16 := 16
  const LEASE_EXPIRED: u16 := 18
  const BOOT_MISMATCH: u16 := 20
  const UNSAFE_CONFIG: u16 := 25
  const SYNC_TIMEOUT: u16 := 26
  const UNSUPPORTED_HARDWARE: u16 := 27
  const LOOPBACK_FAILED: u16 := 28

  datatype State = ResetSafe | SessionWait | IdleSafe | Configuring | Fault

  function StateCode(s: State): byte {
    match s
    case ResetSafe => 0
    case SessionWait => 4
    case Configuring => 5
    case IdleSafe => 6
    case Fault => 7
  }

  // ---------------------------------------------------------------- hardware

  datatype Report = Report(
    captured: u16, triggerIndex: u16, dmaRemaining: u16, burstCompleted: bool, timedOut: bool, syncTimedOut: bool,
    hardwareFault: bool, devStat: byte, diagnosticFlags: u16, diagnosticTick: u16, out3Level: byte, out4Level: byte,
    qualityFlags: u32, events: seq<CaptureEvent>)

  /** periodic says which routine made the call. */
  datatype Call =
    | Apply(profile: Profile)
    | Capture(config: C.Config, trigger: byte, timeout: u32, periodic: bool)
    | ForceSafe
    | Loopback(burst: u16)

  /** The parts of an answer a call does not use are ignored. */
  datatype Answer = Answer(result: T.Result, devStat: byte, ok: bool, report: Report, image: Hash32)

  datatype Event = Event(call: Call, answer: Answer)
  type Trace = seq<Event>
  type Hardware = (Trace, Call) -> Answer

  datatype Env = Env(sha: C.Sha, bootId: (Id16, Id16) -> Id16, hardware: Hardware)

  function Issue(env: Env, t: Trace, call: Call): Event {
    Event(call, env.hardware(t, call))
  }

  predicate Complete(r: Report, pretrigger: u16) {
    pretrigger <= 2048 && r.captured == 2048 && r.triggerIndex == pretrigger && r.dmaRemaining == 0 &&
    r.burstCompleted && !r.timedOut && !r.syncTimedOut && !r.hardwareFault
  }

  // ---------------------------------------------------------------- the application

  /** The last response to a request of one kind, with what identifies that request. */
  datatype Cache = Cache(requestId: seq<byte>, sequence: u32, payloadCrc: u32, response: F.Frame)

  datatype App = App(
    state: State, config: C.Config, configValid: bool, hello: bool,
    deviceId: Id16, bootId: Id16, hostNonce: Id16, resetReason: byte,
    setCache: Option<Cache>, loopbackCache: Option<Cache>, captureCache: Option<Cache>,
    capturePending: bool, captureRequestId: Id16, captureScheduleId: Id16, captureAsync: bool,
    captureRequestSequence: u32, captureSequence: u32, captureReport: Option<Report>,
    periodic: S.Timer, periodicRequestId: Id16, lastError: u16, lastDevStat: byte, clockFaults: u16)

  predicate Valid(a: App) {
    C.IsStruct(a.config) && S.Valid(a.periodic)
  }

  function ProfileOf(c: C.Config): Profile {
    Profile(c.interval, c.burst, c.registers)
  }

  // ---------------------------------------------------------------- responses

  function Respond(request: F.Frame, messageType: byte, payload: seq<byte>): F.Frame {
    F.Frame(messageType, request.sequence, payload, F.RESPONSE)
  }

  function Crc(a: App): u32 {
    if a.configValid then a.config.crc else 0
  }

  function Ack(a: App, request: F.Frame): F.Frame
    requires |request.payload| >= 16
  {
    Respond(request, F.ACK, request.payload[..16] + [request.messageType, StateCode(a.state), 0, 0] + Le32(Crc(a)))
  }

  function Error(a: App, request: F.Frame, code: u16, detail0: u32, detail1: u32): F.Frame {
    Respond(request, F.ERROR,
            (if |request.payload| >= 16 then request.payload[..16] else Zeros(16)) +
            [request.messageType, StateCode(a.state)] + Le16(code) + Le32(detail0) + Le32(detail1) + [0])
  }

  function MapConfigError(r: T.Result): u16 {
    match r
    case VdrvTimeout => VDRV_NOT_READY
    case DriverFault => TUSS_DRIVER_FAULT
    case ReadbackError => TUSS_DRIVER_FAULT
    case BusError => TUSS_DRIVER_FAULT
    case WrongIdentity => UNSUPPORTED_HARDWARE
    case _ => UNSAFE_CONFIG
  }

  datatype Step = Step(app: App, trace: Trace, response: F.Frame)

  // ---------------------------------------------------------------- sessions

  function EndSession(env: Env, a: App, t: Trace): (App, Trace) {
    var safe := Issue(env, t, ForceSafe);
    var failed := safe.answer.result != T.Ok;
    var state := if failed || a.state == Fault then Fault else SessionWait;
    (a.(hello := false, setCache := None, loopbackCache := None, captureCache := None, capturePending := false,
        periodic := S.IDLE, configValid := a.configValid && !failed, state := state,
        bootId := S.NO_ID, hostNonce := S.NO_ID),
     t + [safe])
  }

  function HandleHello(env: Env, a: App, t: Trace, request: F.Frame): Step
    requires |request.payload| >= 16
  {
    var nonce := request.payload[..16];
    var (b, u) := if a.hello && a.hostNonce != nonce then EndSession(env, a, t) else (a, t);
    var c := b.(bootId := env.bootId(b.deviceId, nonce), hostNonce := nonce, hello := true,
                state := if b.state == SessionWait then IdleSafe else b.state);
    Step(c, u, Respond(request, F.HELLO,
      nonce + c.bootId + c.deviceId + [1, c.resetReason] + Le16(0) + Le16(2) + Le16(0) + Le32(2) +
      [StateCode(c.state), 0, 0, 0]))
  }

  // ---------------------------------------------------------------- configuration

  /** The first byte at which the expected hash differs from the current one. */
  function Mismatch(expected: seq<byte>, current: seq<byte>, i: nat): nat
    requires |expected| == 32 && |current| == 32 && i <= 32
    decreases 32 - i
  {
    if i == 32 || expected[i] != current[i] then i else Mismatch(expected, current, i + 1)
  }

  /** The candidate is in force, and answers given under the old configuration are forgotten. */
  function Configured(a: App, candidate: C.Config, devStat: byte): App {
    a.(config := candidate, configValid := true, lastDevStat := devStat,
       loopbackCache := None, captureCache := None, state := IdleSafe)
  }

  function ExecuteSetConfig(env: Env, a: App, t: Trace, request: F.Frame): Step
    requires |request.payload| == 120
  {
    var index := Mismatch(request.payload[16..48], if a.configValid then a.config.sha else Zeros(32), 0);
    if index < 32 then Step(a, t, Error(a, request, CONFIG_MISMATCH, index, 0))
    else
      match C.FirmwareDecode(env.sha, request.payload[48..120])
      case Err(_) => Step(a, t, Error(a, request, UNSAFE_CONFIG, 0, 0))
      case Ok(candidate) =>
        var applied := Issue(env, t, Apply(ProfileOf(candidate)));
        var u := t + [applied];
        if applied.answer.result != T.Ok then
          var b := a.(configValid := false, state := Fault);
          Step(b, u, Error(b, request, MapConfigError(applied.answer.result), applied.answer.devStat, 0))
        else
          var b := Configured(a, candidate, applied.answer.devStat);
          Step(b, u, Ack(b, request))
  }

  /** A request is the cached one when identifier, sequence and payload checksum agree. */
  predicate SameRequest(c: Cache, request: F.Frame)
    requires |request.payload| >= 16
  {
    c.requestId == request.payload[..16] && c.sequence == request.sequence &&
    c.payloadCrc == Crc32.Checksum(request.payload)
  }

  predicate SameId(c: Cache, request: F.Frame)
    requires |request.payload| >= 16
  {
    c.requestId == request.payload[..16]
  }

  function Remember(request: F.Frame, response: F.Frame): Cache
    requires |request.payload| >= 16
  {
    Cache(request.payload[..16], request.sequence, Crc32.Checksum(request.payload), response)
  }

  function Reused(a: App, t: Trace, c: Cache, request: F.Frame): Step {
    Step(a, t, Error(a, request, INVALID_MESSAGE, c.sequence, request.sequence))
  }

  function HandleSetConfig(env: Env, a: App, t: Trace, request: F.Frame): Step
    requires |request.payload| == 120
  {
    if a.setCache.Some? && SameRequest(a.setCache.value, request) then Step(a, t, a.setCache.value.response)
    else if a.setCache.Some? && SameId(a.setCache.value, request) then Reused(a, t, a.setCache.value, request)
    else
      var s := ExecuteSetConfig(env, a, t, request);
      s.(app := s.app.(setCache := Some(Remember(request, s.response))))
  }

  // ---------------------------------------------------------------- loopback

  function BaselineConfig(sha: C.Sha): C.Config {
    ConfigObject.Rehashed(sha, C.Config(
      C.SCHEMA, 120, 2048, 64, 12, 0, 3300, 50, ConfigObject.Baseline(), Zeros(32), 0))
  }

  function HandleLoopback(env: Env, a: App, t: Trace, request: F.Frame): Step
    requires |request.payload| == 56
  {
    var baseline := BaselineConfig(env.sha);
    if a.loopbackCache.Some? && SameRequest(a.loopbackCache.value, request) then Step(a, t, a.loopbackCache.value.response)
    else if a.loopbackCache.Some? && SameId(a.loopbackCache.value, request) then Reused(a, t, a.loopbackCache.value, request)
    else if a.state != IdleSafe || !a.configValid then Step(a, t, Error(a, request, INVALID_STATE, 0, 0))
    else if a.clockFaults != 0 then Step(a, t, Error(a, request, TIMING_UNCALIBRATED, a.clockFaults, 0))
    else if request.payload[16..48] != a.config.sha || U32At(request.payload, 48) != a.config.crc then
      Step(a, t, Error(a, request, CONFIG_MISMATCH, 0, 0))
    else if a.config.sha != baseline.sha || a.config.crc != baseline.crc then
      Step(a, t, Error(a, request, UNSUPPORTED_HARDWARE, a.config.burst, 0))
    else
      var ran := Issue(env, t, Loopback(a.config.burst));
      if !ran.answer.ok then Step(a, t + [ran], Error(a, request, LOOPBACK_FAILED, 0, 0))
      else
        var response := Respond(request, F.RUN_IO2_LOOPBACK_TEST,
          request.payload[..16] + a.config.sha + Le32(a.config.crc) + Le16(a.config.burst) + ran.answer.image);
        Step(a.(loopbackCache := Some(Remember(request, response))), t + [ran], response)
  }

  // ---------------------------------------------------------------- captures

  function NextSequence(n: u32): u32 {
    if n == 0xFFFF_FFFF then 1 else n + 1
  }

  predicate TriggerUnsafe(a: App, request: F.Frame)
    requires |request.payload| == 60
  {
    request.payload[52] > 2 || (request.payload[52] != 1 && U32At(request.payload, 56) != 0) ||
    a.config.pretrigger >= 2048
  }

  function CaptureErrorCode(r: Report): u16 {
    if r.syncTimedOut then SYNC_TIMEOUT else if r.hardwareFault then TUSS_DRIVER_FAULT else ADC_DMA_TIMEOUT
  }

  /** The capture that is now held, and will be sent, is the one the request asked for. */
  function RecordSingle(a: App, request: F.Frame, report: Report): App
    requires |request.payload| >= 16
  {
    a.(captureRequestId := request.payload[..16], captureScheduleId := S.NO_ID, captureAsync := false,
       captureRequestSequence := request.sequence, captureSequence := NextSequence(a.captureSequence),
       captureReport := Some(report), capturePending := true)
  }

  /** Apply the profile, capture, make safe: the only way to a single capture. */
  function RunCapture(env: Env, a: App, t: Trace, request: F.Frame): Step
    requires |request.payload| == 60
  {
    var applied := Issue(env, t, Apply(ProfileOf(a.config)));
    var u := t + [applied];
    if applied.answer.result != T.Ok then
      Step(a, u + [Issue(env, u, ForceSafe)],
           Error(a, request, MapConfigError(applied.answer.result), applied.answer.devStat, 0))
    else
      var taken := Issue(env, u, Capture(a.config, request.payload[52], U32At(request.payload, 56), false));
      var safe := Issue(env, u + [taken], ForceSafe);
      var v := u + [taken, safe];
      var report := if safe.answer.result != T.Ok then taken.answer.report.(hardwareFault := true) else taken.answer.report;
      if !taken.answer.ok || !Complete(report, a.config.pretrigger) then
        Step(a, v, Error(a, request, CaptureErrorCode(report),
                         report.captured + 0x1_0000 * report.diagnosticFlags as int,
                         report.dmaRemaining + 0x1_0000 * report.diagnosticTick as int))
      else
        var b := RecordSingle(a, request, report);
        var response := Ack(b, request);
        Step(b.(captureCache := Some(Remember(request, response))), v, response)
  }

  function HandleCaptureOnce(env: Env, a: App, t: Trace, request: F.Frame): Step
    requires |request.payload| == 60
  {
    if a.captureCache.Some? && SameRequest(a.captureCache.value, request) then
      Step(a.(capturePending := true), t, a.captureCache.value.response)
    else if a.captureCache.Some? && SameId(a.captureCache.value, request) then Reused(a, t, a.captureCache.value, request)
    else if a.state != IdleSafe || !a.configValid then Step(a, t, Error(a, request, INVALID_STATE, 0, 0))
    else if a.clockFaults != 0 then Step(a, t, Error(a, request, TIMING_UNCALIBRATED, a.clockFaults, 0))
    else if request.payload[16..48] != a.config.sha || U32At(request.payload, 48) != a.config.crc then
      Step(a, t, Error(a, request, CONFIG_MISMATCH, 0, 0))
    else if TriggerUnsafe(a, request) then Step(a, t, Error(a, request, UNSAFE_CONFIG, 0, 0))
    else RunCapture(env, a, t, request)
  }

  // ---------------------------------------------------------------- the periodic schedule

  function HandleStart(a: App, t: Trace, request: F.Frame): Step
    requires |request.payload| == 80
  {
    if a.state != IdleSafe || !a.configValid || a.capturePending || a.clockFaults != 0 then
      Step(a, t, Error(a, request, INVALID_STATE, 0, 0))
    else if request.payload[32..64] != a.config.sha || U32At(request.payload, 64) != a.config.crc then
      Step(a, t, Error(a, request, CONFIG_MISMATCH, 0, 0))
    else
      var (periodic, result) := S.Start(a.periodic, request.payload[16..32], U32At(request.payload, 68),
                                        U32At(request.payload, 72), U32At(request.payload, 76) % 0x1_0000);
      if result == S.Ok then
        var b := a.(periodic := periodic, periodicRequestId := request.payload[..16], lastError := 0);
        Step(b, t, Ack(b, request))
      else Step(a, t, Error(a, request, if result == S.Conflict then INVALID_STATE else UNSAFE_CONFIG, 0, 0))
  }

  function HandleRenew(a: App, t: Trace, request: F.Frame): Step
    requires |request.payload| == 40 && Valid(a)
  {
    if request.payload[..16] != a.bootId then Step(a, t, Error(a, request, BOOT_MISMATCH, 0, 0))
    else
      var (periodic, result) := S.Renew(a.periodic, request.payload[16..32], U32At(request.payload, 32),
                                        U32At(request.payload, 36) % 0x1_0000);
      var b := a.(periodic := periodic);
      if result == S.Ok then
        Step(b, t, Respond(request, F.RENEW_PERIODIC_LEASE,
          b.bootId + b.periodic.id + Le32(b.periodic.leaseSequence) + Le32(S.LeaseRemainingMs(b.periodic))))
      else Step(b, t, Error(b, request, if result == S.Conflict then INVALID_STATE else INVALID_MESSAGE, 0, 0))
  }

  function HandleStop(env: Env, a: App, t: Trace, request: F.Frame): Step
    requires |request.payload| == 32
  {
    var (periodic, result) := S.Stop(a.periodic, request.payload[16..32]);
    if result == S.Conflict then Step(a, t, Error(a, request, INVALID_STATE, 0, 0))
    else
      var b := a.(periodic := periodic, lastError := 0);
      Step(b, t + [Issue(env, t, ForceSafe)], Ack(b, request))
  }

  function AdvanceTime(env: Env, a: App, t: Trace, us: u32): (App, Trace)
    requires Valid(a)
  {
    if !a.periodic.active then (a, t)
    else
      var (periodic, result) := S.Advance(a.periodic, us);
      if result == S.Expired then
        (a.(periodic := periodic, lastError := LEASE_EXPIRED), t + [Issue(env, t, ForceSafe)])
      else (a.(periodic := periodic), t)
  }

  /** The first fault of a boot is latched; nothing clears it. */
  function UpdateClockFaults(env: Env, a: App, t: Trace, faults: u16): (App, Trace) {
    if faults == 0 || a.clockFaults != 0 then (a, t)
    else
      (a.(clockFaults := faults, lastError := TIMING_UNCALIBRATED,
          periodic := if a.periodic.active then S.Stop(a.periodic, a.periodic.id).0 else a.periodic),
       t + [Issue(env, t, ForceSafe)])
  }

  predicate PeriodicDue(a: App) {
    a.periodic.active && a.periodic.due && a.clockFaults == 0 && !a.capturePending
  }

  /** The held capture is the schedule's, and it counts as completed. */
  function RecordPeriodic(a: App, report: Report): App {
    var sequence := NextSequence(a.captureSequence);
    var claimed := S.Claim(a.periodic).0;
    a.(captureSequence := sequence, captureRequestId := a.periodicRequestId, captureScheduleId := a.periodic.id,
       captureRequestSequence := sequence, captureAsync := true, captureReport := Some(report),
       lastDevStat := report.devStat, capturePending := true, lastError := 0,
       periodic := if claimed.active then claimed else claimed.(id := S.NO_ID))
  }

  function RunPeriodic(env: Env, a: App, t: Trace): (App, Trace)
    requires Valid(a)
  {
    if !PeriodicDue(a) then (a, t)
    else
      var applied := Issue(env, t, Apply(ProfileOf(a.config)));
      var u := t + [applied];
      if applied.answer.result != T.Ok then
        (a.(lastError := TUSS_DRIVER_FAULT, periodic := S.Stop(a.periodic, a.periodic.id).0),
         u + [Issue(env, u, ForceSafe)])
      else
        var taken := Issue(env, u, Capture(a.config, 0, 0, true));
        var v := u + [taken, Issue(env, u + [taken], ForceSafe)];
        var report := taken.answer.report;
        if !taken.answer.ok || !Complete(report, a.config.pretrigger) then
          (a.(lastError := if report.hardwareFault then TUSS_DRIVER_FAULT else ADC_DMA_TIMEOUT,
              periodic := S.Stop(a.periodic, a.periodic.id).0), v)
        else
          (RecordPeriodic(a, report), v)
  }

  // ---------------------------------------------------------------- reading

  function HandleGetConfig(env: Env, a: App, t: Trace, request: F.Frame): Step
    requires Valid(a)
  {
    if !a.configValid then Step(a, t, Error(a, request, INVALID_STATE, 0, 0))
    else
      match C.FirmwareEncode(env.sha, a.config, C.WIRE_LENGTH)
      case Ok(wire) => Step(a, t, Respond(request, F.GET_CONFIG, wire))
      case Err(_) => Step(a, t, Error(a, request, INTERNAL, 0, 0))
  }

  function HandleGetCapabilities(a: App, t: Trace, request: F.Frame): Step {
    Step(a, t, Respond(request, F.GET_CAPABILITIES,
      Le32(0x7F) + Le16(192) + Le16(2048) + Le16(120) + Le16(960) + Le16(24) + Le16(800) +
      [10, 1, 16, 12, 0x0F, 0, 0, 0]))
  }

  function HandleGetStatus(a: App, t: Trace, request: F.Frame): Step
    requires Valid(a)
  {
    var s := a.periodic;
    Step(a, t, Respond(request, F.GET_STATUS,
      a.bootId + [StateCode(a.state), 0] + Le16(a.lastError) +
      (if a.configValid then a.config.sha else Zeros(32)) + Le32(Crc(a)) +
      Le32(a.captureSequence) + Le32(s.missed) + Le32(0x20) +
      [a.lastDevStat, if And(a.lastDevStat, 0x08) != 0 then 1 else 0,
       if a.configValid && And(a.config.auxFlags, 0x01) != 0 then 1 else 0,
       if a.configValid && And(a.config.auxFlags, 0x02) != 0 then 1 else 0] +
      Le16(a.clockFaults) + [0, 0] +
      (if s.active then s.id else S.NO_ID) + Le32(if s.active then s.leaseSequence else 0) +
      Le32(S.LeaseRemainingMs(s))))
  }

  // ---------------------------------------------------------------- dispatch

  function Handle(env: Env, a: App, t: Trace, request: F.Frame): Step
    requires Valid(a) && P.Acceptable(request)
  {
    if request.flags != 0 then Step(a, t, Error(a, request, INVALID_MESSAGE, request.flags, 0))
    else if request.messageType == F.HELLO then HandleHello(env, a, t, request)
    else if !a.hello then Step(a, t, Error(a, request, INVALID_STATE, 0, 0))
    else if request.messageType == F.GET_CAPABILITIES then HandleGetCapabilities(a, t, request)
    else if request.messageType == F.GET_STATUS then HandleGetStatus(a, t, request)
    else if request.messageType == F.GET_CONFIG then HandleGetConfig(env, a, t, request)
    else if request.messageType == F.SET_CONFIG then HandleSetConfig(env, a, t, request)
    else if request.messageType == F.RUN_IO2_LOOPBACK_TEST then HandleLoopback(env, a, t, request)
    else if request.messageType == F.CAPTURE_ONCE then HandleCaptureOnce(env, a, t, request)
    else if request.messageType == F.START_PERIODIC then HandleStart(a, t, request)
    else if request.messageType == F.RENEW_PERIODIC_LEASE then HandleRenew(a, t, request)
    else if request.messageType == F.STOP then HandleStop(env, a, t, request)
    else Step(a, t, Error(a, request, UNSUPPORTED_TYPE, 0, 0))
  }

  /** What the main loop may ask the application to do. */
  datatype Action =
    | Receive(request: F.Frame)
    | Elapse(us: u32)
    | Clock(faults: u16)
    | Periodic
    | SessionLost
    | FrameSent

  predicate Enabled(x: Action) {
    x.Receive? ==> P.Acceptable(x.request)
  }

  function Next(env: Env, a: App, t: Trace, x: Action): (App, Trace)
    requires Valid(a) && Enabled(x)
  {
    match x
    case Receive(request) => (Handle(env, a, t, request).app, Handle(env, a, t, request).trace)
    case Elapse(us) => AdvanceTime(env, a, t, us)
    case Clock(faults) => UpdateClockFaults(env, a, t, faults)
    case Periodic => RunPeriodic(env, a, t)
    case SessionLost => EndSession(env, a, t)
    case FrameSent => (a.(capturePending := false), t)
  }
}
