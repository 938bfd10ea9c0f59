/** What the record of hardware calls looks like in every run of the application. */
module HardwareSafety {
  import opened Bytes
  import opened Delivery
  import opened Profile
  import opened FirmwareApp
  import F = Frame
  import C = ConfigV2
  import S = Schedule
  import T = Configurator
  import P = McuParser
  import Crc32

  /** A capture comes directly after its own profile was applied and is directly made safe. */
  predicate CaptureGuarded(t: Trace, i: nat)
    requires i < |t|
  {
    t[i].call.Capture? ==>
      0 < i && i + 1 < |t| &&
      t[i - 1].call == Apply(ProfileOf(t[i].call.config)) && t[i - 1].answer.result == T.Ok &&
      t[i + 1].call == ForceSafe
  }

  predicate Guarded(t: Trace) {
    forall i :: 0 <= i < |t| ==> CaptureGuarded(t, i)
  }

  /** What one step may add to the record. */
  predicate Batch(n: Trace, faulted: bool, periodic: bool) {
    n == [] ||
    (|n| == 1 && (n[0].call.ForceSafe? || n[0].call.Apply? || (n[0].call.Loopback? && !faulted))) ||
    (|n| == 2 && n[0].call.Apply? && n[1].call.ForceSafe?) ||
    (|n| == 3 && n[1].call.Capture? && !faulted && (n[1].call.periodic ==> periodic) &&
     n[0].call == Apply(ProfileOf(n[1].call.config)) && n[0].answer.result == T.Ok && n[2].call.ForceSafe?)
  }

  lemma BatchGuarded(t: Trace, n: Trace, faulted: bool, periodic: bool)
    requires Guarded(t) && Batch(n, faulted, periodic)
    ensures Guarded(t + n)
  {
    var u := t + n;
    forall i | 0 <= i < |u| ensures CaptureGuarded(u, i) {
      if i < |t| {
        assert CaptureGuarded(t, i);
      } else {
        assert u[i] == n[i - |t|];
      }
    }
  }

  predicate Quiet(n: Trace) {
    forall e :: e in n ==> !e.call.Capture? && !e.call.Loopback?
  }

  predicate NoPeriodic(n: Trace) {
    forall e :: e in n ==> !(e.call.Capture? && e.call.periodic)
  }

  lemma BatchLimits(n: Trace, faulted: bool, periodic: bool)
    requires Batch(n, faulted, periodic)
    ensures faulted ==> Quiet(n)
    ensures !periodic ==> NoPeriodic(n)
  {
  }

  /** The step added this batch, kept a latched fault, and started no schedule unless told to. */
  predicate StepShape(a: App, t: Trace, b: App, u: Trace, n: Trace) {
    Valid(b) && u == t + n && Batch(n, a.clockFaults != 0, a.periodic.active && a.periodic.due) &&
    (a.clockFaults != 0 ==> b.clockFaults == a.clockFaults)
  }

  // ---------------------------------------------------------------- each step

  lemma EndShape(env: Env, a: App, t: Trace) returns (n: Trace)
    requires Valid(a)
    ensures var (b, u) := EndSession(env, a, t); StepShape(a, t, b, u, n) && !b.periodic.active
  {
    n := [Issue(env, t, ForceSafe)];
  }

  lemma HelloShape(env: Env, a: App, t: Trace, request: F.Frame) returns (n: Trace)
    requires Valid(a) && |request.payload| >= 16
    ensures var s := HandleHello(env, a, t, request);
            StepShape(a, t, s.app, s.trace, n) && (!a.periodic.active ==> !s.app.periodic.active)
  {
    if a.hello && a.hostNonce != request.payload[..16] {
      n := EndShape(env, a, t);
    } else {
      n := [];
      assert t + [] == t;
    }
  }

  lemma SetConfigShape(env: Env, a: App, t: Trace, request: F.Frame) returns (n: Trace)
    requires Valid(a) && |request.payload| == 120
    ensures var s := HandleSetConfig(env, a, t, request);
            StepShape(a, t, s.app, s.trace, n) && s.app.periodic == a.periodic
  {
    hide S.Valid, C.FirmwareDecode, Error, Ack, Mismatch, Crc32.Checksum;
    n := if HandleSetConfig(env, a, t, request).trace == t then [] else [HandleSetConfig(env, a, t, request).trace[|t|]];
    assert t + [] == t;
  }

  lemma LoopbackShape(env: Env, a: App, t: Trace, request: F.Frame) returns (n: Trace)
    requires Valid(a) && |request.payload| == 56
    ensures var s := HandleLoopback(env, a, t, request);
            StepShape(a, t, s.app, s.trace, n) && s.app.periodic == a.periodic
  {
    hide S.Valid, BaselineConfig, Error, Crc32.Checksum, U32At;
    n := if HandleLoopback(env, a, t, request).trace == t then [] else [HandleLoopback(env, a, t, request).trace[|t|]];
    assert t + [] == t;
  }

  lemma CaptureShape(env: Env, a: App, t: Trace, request: F.Frame) returns (n: Trace)
    requires Valid(a) && |request.payload| == 60
    ensures var s := HandleCaptureOnce(env, a, t, request);
            StepShape(a, t, s.app, s.trace, n) && s.app.periodic == a.periodic
  {
    hide S.Valid, Error, Ack, Crc32.Checksum, U32At, TriggerUnsafe, Complete;
    var u := HandleCaptureOnce(env, a, t, request).trace;
    n := u[|t|..];
    var applied := Issue(env, t, Apply(ProfileOf(a.config)));
    assert u == t || (a.clockFaults == 0 && t <= u && u == t + n && |n| >= 2 && n[0] == applied);
  }

  lemma StartShape(a: App, t: Trace, request: F.Frame) returns (n: Trace)
    requires Valid(a) && |request.payload| == 80
    ensures var s := HandleStart(a, t, request);
            StepShape(a, t, s.app, s.trace, n) &&
            (!a.periodic.active ==> (s.app.periodic.active <==> s.response.messageType == F.ACK))
  {
    hide U32At, Le16, Le32;
    n := [];
    assert t + [] == t;
  }

  lemma RenewShape(a: App, t: Trace, request: F.Frame) returns (n: Trace)
    requires Valid(a) && |request.payload| == 40
    ensures var s := HandleRenew(a, t, request);
            StepShape(a, t, s.app, s.trace, n) && (s.app.periodic.active <==> a.periodic.active)
  {
    hide Error, U32At, S.LeaseRemainingMs;
    n := [];
    assert t + [] == t;
  }

  lemma StopShape(env: Env, a: App, t: Trace, request: F.Frame) returns (n: Trace)
    requires Valid(a) && |request.payload| == 32
    ensures var s := HandleStop(env, a, t, request);
            StepShape(a, t, s.app, s.trace, n) && (!a.periodic.active ==> !s.app.periodic.active)
  {
    hide Error, Ack;
    n := if HandleStop(env, a, t, request).trace == t then [] else [Issue(env, t, ForceSafe)];
    assert t + [] == t;
  }

  lemma AdvanceShape(env: Env, a: App, t: Trace, us: u32) returns (n: Trace)
    requires Valid(a)
    ensures var (b, u) := AdvanceTime(env, a, t, us);
            StepShape(a, t, b, u, n) && (!a.periodic.active ==> !b.periodic.active)
  {
    S.OperationsKeepValid(a.periodic, S.NO_ID, 0, 0, 0, 0, us);
    hide S.Advance;
    n := if AdvanceTime(env, a, t, us).1 == t then [] else [Issue(env, t, ForceSafe)];
    assert t + [] == t;
  }

  lemma ClockShape(env: Env, a: App, t: Trace, faults: u16) returns (n: Trace)
    requires Valid(a)
    ensures var (b, u) := UpdateClockFaults(env, a, t, faults);
            StepShape(a, t, b, u, n) && (!a.periodic.active ==> !b.periodic.active)
  {
    n := if UpdateClockFaults(env, a, t, faults).1 == t then [] else [Issue(env, t, ForceSafe)];
    assert t + [] == t;
  }

  lemma PeriodicShape(env: Env, a: App, t: Trace) returns (n: Trace)
    requires Valid(a)
    ensures var (b, u) := RunPeriodic(env, a, t);
            StepShape(a, t, b, u, n) && (!a.periodic.active ==> !b.periodic.active)
  {
    S.OperationsKeepValid(a.periodic, a.periodic.id, 0, 0, 0, 0, 0);
    hide Complete;
    n := RunPeriodic(env, a, t).1[|t|..];
    var applied := Issue(env, t, Apply(ProfileOf(a.config)));
    if PeriodicDue(a) {
      assert n[0] == applied;
    }
  }

  lemma NothingShape(a: App, t: Trace) returns (n: Trace)
    requires Valid(a)
    ensures StepShape(a, t, a, t, n) && StepShape(a, t, a.(capturePending := false), t, n)
  {
    n := [];
    assert t + [] == t;
  }

  lemma HandleShape(env: Env, a: App, t: Trace, request: F.Frame) returns (n: Trace)
    requires Valid(a) && P.Acceptable(request)
    ensures var s := Handle(env, a, t, request);
            StepShape(a, t, s.app, s.trace, n) &&
            (!a.periodic.active ==>
              (s.app.periodic.active <==> request.messageType == F.START_PERIODIC && s.response.messageType == F.ACK))
  {
    hide HandleHello, HandleSetConfig, HandleLoopback, HandleCaptureOnce, HandleStart, HandleRenew, HandleStop, StepShape,
      Error, P.PayloadRule, HandleGetConfig, HandleGetStatus, Valid;
    ErrorIsNotAck(a, request);
    n := NothingShape(a, t);
    var kind := request.messageType;
    if request.flags == 0 {
      if kind == F.HELLO {
        n := HelloShape(env, a, t, request);
      } else if a.hello {
        if kind == F.SET_CONFIG {
          n := SetConfigShape(env, a, t, request);
        } else if kind == F.RUN_IO2_LOOPBACK_TEST {
          n := LoopbackShape(env, a, t, request);
        } else if kind == F.CAPTURE_ONCE {
          n := CaptureShape(env, a, t, request);
        } else if kind == F.START_PERIODIC {
          n := StartShape(a, t, request);
        } else if kind == F.RENEW_PERIODIC_LEASE {
          n := RenewShape(a, t, request);
        } else if kind == F.STOP {
          n := StopShape(env, a, t, request);
        } else {
          ReadersChangeNothing(env, a, t, request);
        }
      }
    }
  }

  lemma ErrorIsNotAck(a: App, request: F.Frame)
    ensures forall code, x, y :: Error(a, request, code, x, y).messageType != F.ACK
  {
  }

  lemma ReadersChangeNothing(env: Env, a: App, t: Trace, request: F.Frame)
    requires Valid(a)
    ensures HandleGetConfig(env, a, t, request).app == a && HandleGetConfig(env, a, t, request).trace == t
    ensures HandleGetStatus(a, t, request).app == a && HandleGetStatus(a, t, request).trace == t
    ensures HandleGetCapabilities(a, t, request).app == a && HandleGetCapabilities(a, t, request).trace == t
  {
    hide C.FirmwareEncode, Error, Respond;
  }

  /** A START request that is accepted: its answer is an ACK. */
  predicate AcceptsStart(env: Env, a: App, t: Trace, x: Action)
    requires Valid(a) && Enabled(x)
  {
    x.Receive? && x.request.messageType == F.START_PERIODIC &&
    Handle(env, a, t, x.request).response.messageType == F.ACK
  }

  /** With no schedule active, an accepted START is exactly what makes one active. */
  lemma NextShape(env: Env, a: App, t: Trace, x: Action) returns (n: Trace)
    requires Valid(a) && Enabled(x)
    ensures var (b, u) := Next(env, a, t, x);
            StepShape(a, t, b, u, n) && (!a.periodic.active ==> (b.periodic.active <==> AcceptsStart(env, a, t, x)))
  {
    hide Handle, AdvanceTime, UpdateClockFaults, RunPeriodic, EndSession, StepShape, P.Acceptable, Valid;
    match x
    case Receive(request) => n := HandleShape(env, a, t, request);
    case Elapse(us) => n := AdvanceShape(env, a, t, us);
    case Clock(faults) => n := ClockShape(env, a, t, faults);
    case Periodic => n := PeriodicShape(env, a, t);
    case SessionLost => n := EndShape(env, a, t);
    case FrameSent => n := NothingShape(a, t);
  }

  // ---------------------------------------------------------------- whole runs

  predicate AllEnabled(xs: seq<Action>) {
    forall i :: 0 <= i < |xs| ==> Enabled(xs[i])
  }

  lemma NextValid(env: Env, a: App, t: Trace, x: Action)
    requires Valid(a) && Enabled(x)
    ensures Valid(Next(env, a, t, x).0)
  {
    hide Next, Valid, Batch;
    var _ := NextShape(env, a, t, x);
  }

  function Run(env: Env, a: App, t: Trace, xs: seq<Action>): (App, Trace)
    requires Valid(a) && AllEnabled(xs)
    decreases |xs|
  {
    if xs == [] then (a, t)
    else
      NextValid(env, a, t, xs[0]);
      var (b, u) := Next(env, a, t, xs[0]);
      Run(env, b, u, xs[1..])
  }

  lemma EnabledTail(xs: seq<Action>)
    requires AllEnabled(xs) && xs != []
    ensures Enabled(xs[0]) && AllEnabled(xs[1..])
  {
  }

  /** In every run each capture call follows a successful application of the same profile with
      nothing between, and is followed by the safe transition before anything else. */
  lemma {:induction false} CapturesGuarded(env: Env, a: App, t: Trace, xs: seq<Action>)
    requires Valid(a) && AllEnabled(xs) && Guarded(t)
    ensures Guarded(Run(env, a, t, xs).1)
    decreases |xs|
  {
    hide Guarded, Next, Valid, Enabled, AllEnabled, Batch;
    if xs != [] {
      EnabledTail(xs);
      var n := NextShape(env, a, t, xs[0]);
      var (b, u) := Next(env, a, t, xs[0]);
      BatchGuarded(t, n, a.clockFaults != 0, a.periodic.active && a.periodic.due);
      NextValid(env, a, t, xs[0]);
      CapturesGuarded(env, b, u, xs[1..]);
    }
  }

  lemma QuietJoins(t: Trace, m: Trace, n: Trace)
    requires Quiet(m) && Quiet(n)
    ensures Quiet(m + n) && t + m + n == t + (m + n)
  {
  }

  /** Once a clock fault is latched it stays, and no capture and no loopback is ever called again. */
  lemma {:induction false} FaultForbidsCapture(env: Env, a: App, t: Trace, xs: seq<Action>) returns (n: Trace)
    requires Valid(a) && AllEnabled(xs) && a.clockFaults != 0
    ensures var (b, u) := Run(env, a, t, xs); u == t + n && Quiet(n) && b.clockFaults == a.clockFaults
    decreases |xs|
  {
    hide Quiet, Next, Valid, Enabled, AllEnabled, Batch;
    if xs == [] {
      n := [];
      QuietEmpty(t);
    } else {
      EnabledTail(xs);
      var m := NextShape(env, a, t, xs[0]);
      var (b, u) := Next(env, a, t, xs[0]);
      BatchLimits(m, true, a.periodic.active && a.periodic.due);
      NextValid(env, a, t, xs[0]);
      var rest := FaultForbidsCapture(env, b, u, xs[1..]);
      n := m + rest;
      QuietJoins(t, m, rest);
    }
  }

  lemma QuietEmpty(t: Trace)
    ensures Quiet([]) && NoPeriodic([]) && t + [] == t
  {
  }

  lemma NoPeriodicJoins(t: Trace, m: Trace, n: Trace)
    requires NoPeriodic(m) && NoPeriodic(n)
    ensures NoPeriodic(m + n) && t + m + n == t + (m + n)
  {
  }

  /** No START is accepted along the way; any number may be sent and refused. */
  predicate NoAcceptedStart(env: Env, a: App, t: Trace, xs: seq<Action>)
    requires Valid(a) && AllEnabled(xs)
    decreases |xs|
  {
    xs == [] ||
    (!AcceptsStart(env, a, t, xs[0]) &&
     (NextValid(env, a, t, xs[0]);
      NoAcceptedStart(env, Next(env, a, t, xs[0]).0, Next(env, a, t, xs[0]).1, xs[1..])))
  }

  /** While no schedule is active no periodic capture is made, however long it runs, until a new
      START is accepted; refused ones, renewals, polls and time cannot revive a schedule. */
  lemma {:induction false} EndedMeansNoPeriodic(env: Env, a: App, t: Trace, xs: seq<Action>) returns (n: Trace)
    requires Valid(a) && AllEnabled(xs) && NoAcceptedStart(env, a, t, xs) && !a.periodic.active
    ensures var (b, u) := Run(env, a, t, xs); u == t + n && NoPeriodic(n) && !b.periodic.active
    decreases |xs|
  {
    hide NoPeriodic, Next, Valid, Enabled, AllEnabled, AcceptsStart, Batch;
    if xs == [] {
      n := [];
      QuietEmpty(t);
    } else {
      EnabledTail(xs);
      var m := NextShape(env, a, t, xs[0]);
      var (b, u) := Next(env, a, t, xs[0]);
      BatchLimits(m, a.clockFaults != 0, false);
      NextValid(env, a, t, xs[0]);
      var rest := EndedMeansNoPeriodic(env, b, u, xs[1..]);
      n := m + rest;
      NoPeriodicJoins(t, m, rest);
    }
  }

  /** What ends a schedule: its lease running out, a clock fault, the end of the session, an
      accepted STOP, and a periodic capture that fails. */
  lemma WhatEndsSchedules(env: Env, a: App, t: Trace, us: u32, faults: u16, request: F.Frame)
    requires Valid(a)
    ensures us >= a.periodic.leaseRemaining ==> !AdvanceTime(env, a, t, us).0.periodic.active
    ensures faults != 0 && a.clockFaults == 0 ==> !UpdateClockFaults(env, a, t, faults).0.periodic.active
    ensures !EndSession(env, a, t).0.periodic.active
    ensures |request.payload| == 32 && HandleStop(env, a, t, request).response.messageType == F.ACK ==>
              !HandleStop(env, a, t, request).app.periodic.active
    ensures PeriodicDue(a) && !RunPeriodic(env, a, t).0.capturePending ==> !RunPeriodic(env, a, t).0.periodic.active
  {
    hide S.Div, S.Mod, S.Wrap, Complete;
  }

  // ---------------------------------------------------------------- the frame waiting to be sent

  /** Everything the outgoing frame's descriptor is made from. */
  predicate SameFrame(a: App, b: App) {
    b.config == a.config && b.bootId == a.bootId && b.deviceId == a.deviceId &&
    b.captureRequestId == a.captureRequestId && b.captureScheduleId == a.captureScheduleId &&
    b.captureAsync == a.captureAsync && b.captureRequestSequence == a.captureRequestSequence &&
    b.captureSequence == a.captureSequence && b.captureReport == a.captureReport
  }

  /** While a frame is pending, passing time, clock faults and the periodic runner neither touch it
      nor make another capture: only a command or the end of the session can. */
  lemma PendingFrameUntouched(env: Env, a: App, t: Trace, x: Action)
    requires Valid(a) && a.capturePending && (x.Elapse? || x.Clock? || x.Periodic?)
    ensures var (b, u) := Next(env, a, t, x);
            SameFrame(a, b) && b.capturePending &&
            exists n: Trace :: u == t + n && forall e :: e in n ==> e.call == ForceSafe
  {
    hide S.Advance, S.Stop;
    var u := Next(env, a, t, x).1;
    var n := if u == t then [] else [Issue(env, t, ForceSafe)];
    assert t + [] == t;
    assert u == t + n;
  }
}
