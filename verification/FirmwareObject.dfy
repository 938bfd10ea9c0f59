/** The application as the firmware keeps it: fields changed step by step between calls into an
    injected board. */
module FirmwareObject {
  import opened Bytes
  import opened Delivery
  import opened FirmwareApp
  import F = Frame
  import C = ConfigV2
  import S = Schedule
  import T = Configurator
  import P = McuParser
  import H = HardwareSafety
  import Crc32

  /** The injected callbacks, with the record of what they were asked and answered. */
  class Board {
    const hardware: Hardware
    var trace: Trace

    constructor (hardware: Hardware)
      ensures this.hardware == hardware && trace == []
    {
      this.hardware, trace := hardware, [];
    }

    method Perform(call: Call) returns (answer: Answer)
      modifies this
      ensures trace == old(trace) + [Event(call, answer)] && answer == hardware(old(trace), call)
    {
      answer := hardware(trace, call);
      trace := trace + [Event(call, answer)];
    }
  }

  class UsacFirmwareApp {
    const sha: C.Sha
    const deriveBootId: (Id16, Id16) -> Id16
    const board: Board
    /** The firmware's struct; its fields are assigned one at a time. */
    var app: App

    function World(): Env {
      Env(sha, deriveBootId, board.hardware)
    }

    constructor (sha: C.Sha, deriveBootId: (Id16, Id16) -> Id16, board: Board, deviceId: Id16, resetReason: byte,
                 initial: State)
      ensures Valid(app) && this.board == board && World() == Env(sha, deriveBootId, board.hardware)
      ensures !app.hello && !app.capturePending && app.setCache == None && app.captureCache == None && app.clockFaults == 0
      ensures app.loopbackCache == None && app.config == BaselineConfig(sha)
      ensures app.periodic == S.IDLE && app.configValid == (initial == SessionWait || initial == IdleSafe)
    {
      this.sha, this.deriveBootId, this.board := sha, deriveBootId, board;
      app := App(initial, BaselineConfig(sha), initial == SessionWait || initial == IdleSafe, false,
                 deviceId, S.NO_ID, S.NO_ID, resetReason, None, None, None, false, S.NO_ID, S.NO_ID, false, 0, 0, None,
                 S.IDLE, S.NO_ID, 0, 0, 0);
    }

    method EndSessionNow()
      modifies this, board
      ensures (app, board.trace) == EndSession(World(), old(app), old(board.trace))
    {
      app := app.(hello := false);
      app := app.(setCache := None, loopbackCache := None);
      app := app.(capturePending := false);
      app := app.(captureCache := None);
      app := app.(periodic := S.IDLE);
      var safe := board.Perform(ForceSafe);
      if safe.result != T.Ok {
        app := app.(configValid := false);
        app := app.(state := Fault);
      }
      app := app.(bootId := S.NO_ID, hostNonce := S.NO_ID);
      if app.state != Fault {
        app := app.(state := SessionWait);
      }
    }

    method Hello(request: F.Frame) returns (response: F.Frame)
      requires |request.payload| >= 16
      modifies this, board
      ensures Step(app, board.trace, response) == HandleHello(World(), old(app), old(board.trace), request)
    {
      var nonce := request.payload[..16];
      if app.hello && app.hostNonce != nonce {
        EndSessionNow();
      }
      app := app.(bootId := deriveBootId(app.deviceId, nonce));
      app := app.(hostNonce := nonce);
      app := app.(hello := true);
      if app.state == SessionWait {
        app := app.(state := IdleSafe);
      }
      return Respond(request, F.HELLO,
        nonce + app.bootId + app.deviceId + [1, app.resetReason] + Le16(0) + Le16(2) + Le16(0) + Le32(2) + [StateCode(app.state), 0, 0, 0]);
    }

    method ApplyConfig(request: F.Frame) returns (response: F.Frame)
      requires |request.payload| == 120
      modifies this, board
      ensures Step(app, board.trace, response) ==
                ExecuteSetConfig(World(), old(app), old(board.trace), request)
    {
      hide C.FirmwareDecode, Error, Ack;
      var current := if app.configValid then app.config.sha else Zeros(32);
      var index := 0;
      while index < 32
        invariant index <= 32 && Mismatch(request.payload[16..48], current, 0) == Mismatch(request.payload[16..48], current, index)
      {
        if request.payload[16 + index] != current[index] {
          return Error(app, request, CONFIG_MISMATCH, index, 0);
        }
        index := index + 1;
      }
      var decoded := C.FirmwareDecode(sha, request.payload[48..120]);
      if decoded.Err? {
        return Error(app, request, UNSAFE_CONFIG, 0, 0);
      }
      var candidate := decoded.value;
      app := app.(state := Configuring);
      var applied := board.Perform(Apply(ProfileOf(candidate)));
      if applied.result != T.Ok {
        app := app.(configValid := false);
        app := app.(state := Fault);
        return Error(app, request, MapConfigError(applied.result), applied.devStat, 0);
      }
      app := app.(config := candidate);
      app := app.(configValid := true);
      app := app.(lastDevStat := applied.devStat);
      app := app.(loopbackCache := None, captureCache := None);
      app := app.(state := IdleSafe);
      return Ack(app, request);
    }

    method SetConfig(request: F.Frame) returns (response: F.Frame)
      requires |request.payload| == 120
      modifies this, board
      ensures Step(app, board.trace, response) ==
                HandleSetConfig(World(), old(app), old(board.trace), request)
    {
      hide ExecuteSetConfig, Error, Crc32.Checksum;
      var payloadCrc := Crc32.Checksum(request.payload);
      if app.setCache.Some? {
        var matches := app.setCache.value.requestId == request.payload[..16];
        if matches && request.sequence == app.setCache.value.sequence && payloadCrc == app.setCache.value.payloadCrc {
          return app.setCache.value.response;
        }
        if matches {
          return Error(app, request, INVALID_MESSAGE, app.setCache.value.sequence, request.sequence);
        }
      }
      response := ApplyConfig(request);
      app := app.(setCache := Some(Cache(request.payload[..16], request.sequence, payloadCrc, response)));
    }

    method CaptureOnce(request: F.Frame) returns (response: F.Frame)
      requires |request.payload| == 60
      modifies this, board
      ensures Step(app, board.trace, response) ==
                HandleCaptureOnce(World(), old(app), old(board.trace), request)
    {
      hide Error, Ack, Crc32.Checksum, U32At, Complete, RunCapture;
      var payloadCrc := Crc32.Checksum(request.payload);
      if app.captureCache.Some? {
        var matches := app.captureCache.value.requestId == request.payload[..16];
        if matches && request.sequence == app.captureCache.value.sequence && payloadCrc == app.captureCache.value.payloadCrc {
          app := app.(capturePending := true);
          return app.captureCache.value.response;
        }
        if matches {
          return Error(app, request, INVALID_MESSAGE, app.captureCache.value.sequence, request.sequence);
        }
      }
      if app.state != IdleSafe || !app.configValid {
        return Error(app, request, INVALID_STATE, 0, 0);
      }
      if app.clockFaults != 0 {
        return Error(app, request, TIMING_UNCALIBRATED, app.clockFaults, 0);
      }
      if request.payload[16..48] != app.config.sha || U32At(request.payload, 48) != app.config.crc {
        return Error(app, request, CONFIG_MISMATCH, 0, 0);
      }
      if request.payload[52] > 2 || (request.payload[52] != 1 && U32At(request.payload, 56) != 0) ||
         app.config.pretrigger >= 2048 {
        return Error(app, request, UNSAFE_CONFIG, 0, 0);
      }
      response := ApplyAndCapture(request, payloadCrc);
    }

    method ApplyAndCapture(request: F.Frame, payloadCrc: u32) returns (response: F.Frame)
      requires |request.payload| == 60 && payloadCrc == Crc32.Checksum(request.payload)
      modifies this, board
      ensures Step(app, board.trace, response) == RunCapture(World(), old(app), old(board.trace), request)
    {
      hide Error, Ack, Crc32.Checksum, U32At, Complete, RecordSingle;
      var applied := board.Perform(Apply(ProfileOf(app.config)));
      if applied.result != T.Ok {
        var _ := board.Perform(ForceSafe);
        return Error(app, request, MapConfigError(applied.result), applied.devStat, 0);
      }
      ghost var u := board.trace;
      var taken := board.Perform(Capture(app.config, request.payload[52], U32At(request.payload, 56), false));
      var safe := board.Perform(ForceSafe);
      assert board.trace == u + [Event(Capture(app.config, request.payload[52], U32At(request.payload, 56), false), taken),
                                 Event(ForceSafe, safe)];
      var report := taken.report;
      if safe.result != T.Ok {
        report := report.(hardwareFault := true);
      }
      if !taken.ok || !Complete(report, app.config.pretrigger) {
        return Error(app, request, CaptureErrorCode(report),
                     report.captured + 0x1_0000 * report.diagnosticFlags as int,
                     report.dmaRemaining + 0x1_0000 * report.diagnosticTick as int);
      }
      TakeSingle(request, report);
      response := Ack(app, request);
      app := app.(captureCache := Some(Cache(request.payload[..16], request.sequence, payloadCrc, response)));
    }

    method RunLoopback(request: F.Frame) returns (response: F.Frame)
      requires |request.payload| == 56
      modifies this, board
      ensures Step(app, board.trace, response) == HandleLoopback(World(), old(app), old(board.trace), request)
    {
      hide Error, Crc32.Checksum, U32At, BaselineConfig, Respond, Le16, Le32;
      var payloadCrc := Crc32.Checksum(request.payload);
      if app.loopbackCache.Some? {
        var matches := app.loopbackCache.value.requestId == request.payload[..16];
        if matches && request.sequence == app.loopbackCache.value.sequence && payloadCrc == app.loopbackCache.value.payloadCrc {
          return app.loopbackCache.value.response;
        }
        if matches {
          return Error(app, request, INVALID_MESSAGE, app.loopbackCache.value.sequence, request.sequence);
        }
      }
      if app.state != IdleSafe || !app.configValid {
        return Error(app, request, INVALID_STATE, 0, 0);
      }
      if app.clockFaults != 0 {
        return Error(app, request, TIMING_UNCALIBRATED, app.clockFaults, 0);
      }
      if request.payload[16..48] != app.config.sha || U32At(request.payload, 48) != app.config.crc {
        return Error(app, request, CONFIG_MISMATCH, 0, 0);
      }
      var baseline := BaselineConfig(sha);
      if app.config.sha != baseline.sha || app.config.crc != baseline.crc {
        return Error(app, request, UNSUPPORTED_HARDWARE, app.config.burst, 0);
      }
      var ran := board.Perform(Loopback(app.config.burst));
      if !ran.ok {
        return Error(app, request, LOOPBACK_FAILED, 0, 0);
      }
      response := Respond(request, F.RUN_IO2_LOOPBACK_TEST,
        request.payload[..16] + app.config.sha + Le32(app.config.crc) + Le16(app.config.burst) + ran.image);
      app := app.(loopbackCache := Some(Cache(request.payload[..16], request.sequence, payloadCrc, response)));
    }

    method StartPeriodic(request: F.Frame) returns (response: F.Frame)
      requires |request.payload| == 80
      modifies this
      ensures Step(app, board.trace, response) == HandleStart(old(app), board.trace, request)
    {
      hide Error, Ack, U32At, S.Start;
      if app.state != IdleSafe || !app.configValid || app.capturePending || app.clockFaults != 0 {
        return Error(app, request, INVALID_STATE, 0, 0);
      }
      if request.payload[32..64] != app.config.sha || U32At(request.payload, 64) != app.config.crc {
        return Error(app, request, CONFIG_MISMATCH, 0, 0);
      }
      var started := S.Start(app.periodic, request.payload[16..32], U32At(request.payload, 68),
                             U32At(request.payload, 72), U32At(request.payload, 76) % 0x1_0000);
      if started.1 != S.Ok {
        return Error(app, request, if started.1 == S.Conflict then INVALID_STATE else UNSAFE_CONFIG, 0, 0);
      }
      app := app.(periodic := started.0);
      app := app.(periodicRequestId := request.payload[..16]);
      app := app.(lastError := 0);
      return Ack(app, request);
    }

    method RenewPeriodic(request: F.Frame) returns (response: F.Frame)
      requires |request.payload| == 40 && Valid(app)
      modifies this
      ensures Step(app, board.trace, response) == HandleRenew(old(app), board.trace, request)
    {
      hide Error, U32At, Respond, Le32, S.LeaseRemainingMs;
      if request.payload[..16] != app.bootId {
        return Error(app, request, BOOT_MISMATCH, 0, 0);
      }
      var renewed := S.Renew(app.periodic, request.payload[16..32], U32At(request.payload, 32),
                             U32At(request.payload, 36) % 0x1_0000);
      app := app.(periodic := renewed.0);
      if renewed.1 != S.Ok {
        return Error(app, request, if renewed.1 == S.Conflict then INVALID_STATE else INVALID_MESSAGE, 0, 0);
      }
      LeaseFits(app.periodic);
      return Respond(request, F.RENEW_PERIODIC_LEASE,
        app.bootId + app.periodic.id + Le32(app.periodic.leaseSequence) + Le32(S.LeaseRemainingMs(app.periodic)));
    }

    method StopPeriodic(request: F.Frame) returns (response: F.Frame)
      requires |request.payload| == 32
      modifies this, board
      ensures Step(app, board.trace, response) == HandleStop(World(), old(app), old(board.trace), request)
    {
      hide Error, Ack, S.Stop;
      var stopped := S.Stop(app.periodic, request.payload[16..32]);
      if stopped.1 == S.Conflict {
        return Error(app, request, INVALID_STATE, 0, 0);
      }
      app := app.(periodic := stopped.0);
      var _ := board.Perform(ForceSafe);
      app := app.(lastError := 0);
      return Ack(app, request);
    }

    /** usac_firmware_app_handle: flags, HELLO, session, then the type. */
    method HandleFrame(request: F.Frame) returns (response: F.Frame)
      requires Valid(app) && P.Acceptable(request)
      modifies this, board
      ensures Step(app, board.trace, response) == Handle(World(), old(app), old(board.trace), request)
    {
      hide HandleHello, HandleSetConfig, HandleLoopback, HandleCaptureOnce, HandleStart, HandleRenew, HandleStop, Error,
        HandleGetConfig, HandleGetStatus, HandleGetCapabilities, P.PayloadRule;
      var kind := request.messageType;
      if request.flags != 0 {
        return Error(app, request, INVALID_MESSAGE, request.flags, 0);
      }
      if kind == F.HELLO {
        response := Hello(request);
        return;
      }
      if !app.hello {
        return Error(app, request, INVALID_STATE, 0, 0);
      }
      if kind == F.GET_CAPABILITIES || kind == F.GET_STATUS || kind == F.GET_CONFIG {
        response := Inspect(request);
        return;
      }
      if kind == F.SET_CONFIG {
        response := SetConfig(request);
      } else if kind == F.RUN_IO2_LOOPBACK_TEST {
        response := RunLoopback(request);
      } else if kind == F.CAPTURE_ONCE {
        response := CaptureOnce(request);
      } else if kind == F.START_PERIODIC {
        response := StartPeriodic(request);
      } else if kind == F.RENEW_PERIODIC_LEASE {
        response := RenewPeriodic(request);
      } else if kind == F.STOP {
        response := StopPeriodic(request);
      } else {
        response := Error(app, request, UNSUPPORTED_TYPE, 0, 0);
      }
    }

    /** The three requests that only read. */
    method Inspect(request: F.Frame) returns (response: F.Frame)
      requires Valid(app) && request.messageType in {F.GET_CAPABILITIES, F.GET_STATUS, F.GET_CONFIG}
      ensures Step(app, board.trace, response) ==
                if request.messageType == F.GET_CAPABILITIES then HandleGetCapabilities(app, board.trace, request)
                else if request.messageType == F.GET_STATUS then HandleGetStatus(app, board.trace, request)
                else HandleGetConfig(World(), app, board.trace, request)
    {
      H.ReadersChangeNothing(World(), app, board.trace, request);
      if request.messageType == F.GET_CAPABILITIES {
        return HandleGetCapabilities(app, board.trace, request).response;
      }
      if request.messageType == F.GET_STATUS {
        return HandleGetStatus(app, board.trace, request).response;
      }
      return HandleGetConfig(World(), app, board.trace, request).response;
    }

    method Advance(us: u32)
      requires Valid(app)
      modifies this, board
      ensures (app, board.trace) == AdvanceTime(World(), old(app), old(board.trace), us)
    {
      hide S.Advance;
      if app.periodic.active {
        var advanced := S.Advance(app.periodic, us);
        app := app.(periodic := advanced.0);
        if advanced.1 == S.Expired {
          app := app.(lastError := LEASE_EXPIRED);
          var _ := board.Perform(ForceSafe);
        }
      }
    }

    method LatchClockFaults(faults: u16)
      modifies this, board
      ensures (app, board.trace) == UpdateClockFaults(World(), old(app), old(board.trace), faults)
    {
      if faults == 0 || app.clockFaults != 0 {
        return;
      }
      app := app.(clockFaults := faults);
      app := app.(lastError := TIMING_UNCALIBRATED);
      if app.periodic.active {
        app := app.(periodic := S.Stop(app.periodic, app.periodic.id).0);
      }
      var _ := board.Perform(ForceSafe);
    }

    /** One capture that is already due; a failed burst is never retried. */
    method RunPeriodicCapture()
      requires Valid(app)
      modifies this, board
      ensures (app, board.trace) == RunPeriodic(World(), old(app), old(board.trace))
    {
      hide Complete, S.Claim, RecordPeriodic;
      if !PeriodicDue(app) {
        return;
      }
      var applied := board.Perform(Apply(ProfileOf(app.config)));
      if applied.result != T.Ok {
        app := app.(lastError := TUSS_DRIVER_FAULT);
        app := app.(periodic := S.Stop(app.periodic, app.periodic.id).0);
        var _ := board.Perform(ForceSafe);
        return;
      }
      ghost var u := board.trace;
      var taken := board.Perform(Capture(app.config, 0, 0, true));
      var report := taken.report;
      if !taken.ok || !Complete(report, app.config.pretrigger) {
        app := app.(lastError := if report.hardwareFault then TUSS_DRIVER_FAULT else ADC_DMA_TIMEOUT);
        app := app.(periodic := S.Stop(app.periodic, app.periodic.id).0);
        var safe := board.Perform(ForceSafe);
        assert board.trace == u + [Event(Capture(app.config, 0, 0, true), taken), Event(ForceSafe, safe)];
        return;
      }
      var safe := board.Perform(ForceSafe);
      assert board.trace == u + [Event(Capture(app.config, 0, 0, true), taken), Event(ForceSafe, safe)];
      TakePeriodic(report);
    }

    method TakeSingle(request: F.Frame, report: Report)
      requires |request.payload| >= 16
      modifies this
      ensures app == RecordSingle(old(app), request, report)
    {
      app := app.(captureRequestId := request.payload[..16]);
      app := app.(captureScheduleId := S.NO_ID);
      app := app.(captureAsync := false);
      app := app.(captureRequestSequence := request.sequence);
      app := app.(captureSequence := NextSequence(app.captureSequence));
      app := app.(captureReport := Some(report));
      app := app.(capturePending := true);
    }

    method TakePeriodic(report: Report)
      modifies this
      ensures app == RecordPeriodic(old(app), report)
    {
      hide S.Claim;
      app := app.(captureSequence := NextSequence(app.captureSequence));
      app := app.(captureRequestId := app.periodicRequestId);
      app := app.(captureScheduleId := app.periodic.id);
      app := app.(captureRequestSequence := app.captureSequence);
      app := app.(captureAsync := true);
      app := app.(captureReport := Some(report));
      app := app.(lastDevStat := report.devStat);
      app := app.(capturePending := true);
      app := app.(lastError := 0);
      app := app.(periodic := S.Claim(app.periodic).0);
      if !app.periodic.active {
        app := app.(periodic := app.periodic.(id := S.NO_ID));
      }
    }
  }

  lemma LeaseFits(s: S.Timer)
    requires S.Valid(s)
    ensures S.LeaseRemainingMs(s) < 0x1_0000_0000
  {
  }
}
