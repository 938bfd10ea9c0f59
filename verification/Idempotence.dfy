/** Repeated commands: a duplicate is answered with the same bytes and no call into hardware. */
module Idempotence {
  import opened Bytes
  import opened Delivery
  import opened FirmwareApp
  import F = Frame
  import S = Schedule
  import C = ConfigV2
  import P = McuParser
  import H = HardwareSafety
  import Crc32

  /** A command of this type that reaches its handler. */
  predicate Dispatched(a: App, request: F.Frame, messageType: byte) {
    P.Acceptable(request) && request.flags == 0 && request.messageType == messageType && a.hello
  }

  // ---------------------------------------------------------------- immediately

  /** Whatever the first SET_CONFIG did, succeeded or failed, sending it again repeats its response
      and does nothing else. */
  lemma SetConfigTwice(env: Env, a: App, t: Trace, request: F.Frame, u: Trace)
    requires Valid(a) && |request.payload| == 120
    ensures var s := HandleSetConfig(env, a, t, request);
            HandleSetConfig(env, s.app, u, request) == Step(s.app, u, s.response)
  {
    hide ExecuteSetConfig, Error, Crc32.Checksum;
  }

  /** A single capture that was acknowledged is acknowledged again without another capture; only
      the frame held now becomes pending again. */
  lemma CaptureTwice(env: Env, a: App, t: Trace, request: F.Frame, u: Trace)
    requires Valid(a) && |request.payload| == 60
    requires HandleCaptureOnce(env, a, t, request).response.messageType == F.ACK
    ensures var s := HandleCaptureOnce(env, a, t, request);
            HandleCaptureOnce(env, s.app, u, request) == Step(s.app.(capturePending := true), u, s.response)
  {
    hide *;
    CaptureCached(env, a, t, request);
    CachedAnswered(env, HandleCaptureOnce(env, a, t, request).app, u, request);
  }

  /** An acknowledged capture is in the cache with its acknowledgement. */
  lemma CaptureCached(env: Env, a: App, t: Trace, request: F.Frame)
    requires Valid(a) && |request.payload| == 60
    requires HandleCaptureOnce(env, a, t, request).response.messageType == F.ACK
    ensures var s := HandleCaptureOnce(env, a, t, request);
            s.app.hello == a.hello && s.app.captureCache.Some? && SameRequest(s.app.captureCache.value, request) &&
            s.app.captureCache.value.response == s.response
  {
    hide Ack, Complete, Crc32.Checksum, U32At, TriggerUnsafe, Le16, Le32;
  }

  lemma CachedAnswered(env: Env, b: App, u: Trace, request: F.Frame)
    requires |request.payload| == 60 && b.captureCache.Some? && SameRequest(b.captureCache.value, request)
    ensures HandleCaptureOnce(env, b, u, request) == Step(b.(capturePending := true), u, b.captureCache.value.response)
  {
    hide SameRequest, RunCapture, TriggerUnsafe, U32At, Error;
  }

  // ---------------------------------------------------------------- later

  /** The session goes on: it is not lost, and no HELLO brings another nonce. */
  predicate KeepsSession(a: App, x: Action)
    requires Enabled(x)
  {
    !x.SessionLost? &&
    (x.Receive? && x.request.messageType == F.HELLO && x.request.flags == 0 && a.hello ==>
      x.request.payload[..16] == a.hostNonce)
  }

  /** Nothing replaces the SET_CONFIG cache: no SET_CONFIG with another identifier is handled. */
  predicate KeepsSetCache(a: App, x: Action)
    requires Enabled(x)
  {
    KeepsSession(a, x) &&
    (x.Receive? && Dispatched(a, x.request, F.SET_CONFIG) ==> a.setCache.Some? && SameId(a.setCache.value, x.request))
  }

  /** Nothing replaces or clears the CAPTURE_ONCE cache: no other configuration and no other
      capture is acknowledged. Refused ones, and the cached ones again, leave it alone. */
  predicate KeepsCaptureCache(env: Env, a: App, t: Trace, x: Action)
    requires Valid(a) && Enabled(x)
  {
    KeepsSession(a, x) &&
    (x.Receive? && Handle(env, a, t, x.request).response.messageType == F.ACK ==>
      (Dispatched(a, x.request, F.SET_CONFIG) ==> a.setCache.Some? && SameId(a.setCache.value, x.request)) &&
      (Dispatched(a, x.request, F.CAPTURE_ONCE) ==> a.captureCache.Some? && SameId(a.captureCache.value, x.request)))
  }

  /** What both caches, the session and the capture cache's validity depend on is unchanged. */
  predicate SameCaches(a: App, b: App) {
    b.setCache == a.setCache && b.captureCache == a.captureCache && b.hello == a.hello
  }

  lemma ScheduleKeepsCaches(env: Env, a: App, t: Trace, request: F.Frame)
    requires Valid(a)
    ensures |request.payload| == 80 ==> SameCaches(a, HandleStart(a, t, request).app)
    ensures |request.payload| == 40 ==> SameCaches(a, HandleRenew(a, t, request).app)
    ensures |request.payload| == 32 ==> SameCaches(a, HandleStop(env, a, t, request).app)
  {
    hide Error, Ack, U32At, Respond, S.Start, S.Renew, S.Stop, S.LeaseRemainingMs, Le32;
  }

  lemma LoopbackKeepsCaches(env: Env, a: App, t: Trace, request: F.Frame)
    requires Valid(a) && |request.payload| == 56
    ensures SameCaches(a, HandleLoopback(env, a, t, request).app)
  {
    hide Error, U32At, Respond, BaselineConfig, SameRequest, SameId, Le16, Le32, Remember;
  }

  /** A SET_CONFIG touches the capture cache only by succeeding, and neither cache by repeating. */
  lemma SetConfigOnCaches(env: Env, a: App, t: Trace, request: F.Frame)
    requires Valid(a) && |request.payload| == 120
    ensures var s := HandleSetConfig(env, a, t, request);
            s.app.hello == a.hello &&
            (a.setCache.Some? && SameId(a.setCache.value, request) ==> SameCaches(a, s.app)) &&
            (s.response.messageType != F.ACK ==> s.app.captureCache == a.captureCache)
  {
    hide Crc32.Checksum, C.FirmwareDecode, Mismatch, Le16, Le32, Error;
  }

  lemma CaptureOnCaches(env: Env, a: App, t: Trace, request: F.Frame)
    requires Valid(a) && |request.payload| == 60
    ensures var s := HandleCaptureOnce(env, a, t, request);
            s.app.hello == a.hello && s.app.setCache == a.setCache &&
            (a.captureCache.Some? && SameId(a.captureCache.value, request) ==> SameCaches(a, s.app)) &&
            (s.response.messageType != F.ACK ==> SameCaches(a, s.app))
  {
    hide Crc32.Checksum, U32At, TriggerUnsafe, Complete, Le16, Le32, Error;
  }

  lemma TimeKeepsCaches(env: Env, a: App, t: Trace, us: u32, faults: u16)
    requires Valid(a)
    ensures SameCaches(a, AdvanceTime(env, a, t, us).0) && SameCaches(a, UpdateClockFaults(env, a, t, faults).0)
    ensures SameCaches(a, RunPeriodic(env, a, t).0)
  {
    hide S.Advance, S.Stop, S.Claim, Complete;
  }

  /** What a request can do to the caches. */
  lemma HandleOnCaches(env: Env, a: App, t: Trace, request: F.Frame)
    requires Valid(a) && P.Acceptable(request) && KeepsSession(a, Receive(request))
    ensures var s := Handle(env, a, t, request);
            var configures :=
              Dispatched(a, request, F.SET_CONFIG) && !(a.setCache.Some? && SameId(a.setCache.value, request));
            var captures :=
              Dispatched(a, request, F.CAPTURE_ONCE) && !(a.captureCache.Some? && SameId(a.captureCache.value, request));
            var refused := s.response.messageType != F.ACK;
            (a.hello ==> s.app.hello) &&
            (!configures ==> s.app.setCache == a.setCache) &&
            (configures && refused ==> s.app.captureCache == a.captureCache) &&
            (!configures && (!captures || refused) ==> s.app.captureCache == a.captureCache)
  {
    hide HandleHello, HandleSetConfig, HandleLoopback, HandleCaptureOnce, HandleStart, HandleRenew, HandleStop, Error,
      P.PayloadRule, HandleGetConfig, HandleGetStatus, HandleGetCapabilities, Valid, SameId;
    var kind := request.messageType;
    if request.flags == 0 && kind == F.HELLO {
      HelloOnCaches(env, a, t, request);
    } else if request.flags == 0 && a.hello {
      if kind == F.SET_CONFIG {
        SetConfigOnCaches(env, a, t, request);
      } else if kind == F.RUN_IO2_LOOPBACK_TEST {
        LoopbackKeepsCaches(env, a, t, request);
      } else if kind == F.CAPTURE_ONCE {
        CaptureOnCaches(env, a, t, request);
      } else {
        ScheduleKeepsCaches(env, a, t, request);
        H.ReadersChangeNothing(env, a, t, request);
      }
    }
  }

  lemma HelloOnCaches(env: Env, a: App, t: Trace, request: F.Frame)
    requires Valid(a) && |request.payload| >= 16 && (a.hello ==> a.hostNonce == request.payload[..16])
    ensures var b := HandleHello(env, a, t, request).app;
            b.setCache == a.setCache && b.captureCache == a.captureCache && b.hello
  {
    hide Respond, Le16, Le32;
  }

  lemma SetCacheStays(env: Env, a: App, t: Trace, x: Action)
    requires Valid(a) && Enabled(x) && a.hello && KeepsSetCache(a, x)
    ensures var b := Next(env, a, t, x).0; b.setCache == a.setCache && b.hello
  {
    hide Handle, AdvanceTime, UpdateClockFaults, RunPeriodic, EndSession, P.Acceptable, Valid;
    match x
    case Receive(request) => HandleOnCaches(env, a, t, request);
    case Elapse(us) => TimeKeepsCaches(env, a, t, us, 0);
    case Clock(faults) => TimeKeepsCaches(env, a, t, 0, faults);
    case Periodic => TimeKeepsCaches(env, a, t, 0, 0);
    case FrameSent =>
  }

  lemma CaptureCacheStays(env: Env, a: App, t: Trace, x: Action)
    requires Valid(a) && Enabled(x) && a.hello && KeepsCaptureCache(env, a, t, x)
    ensures var b := Next(env, a, t, x).0; b.captureCache == a.captureCache && b.hello
  {
    hide Handle, AdvanceTime, UpdateClockFaults, RunPeriodic, EndSession, P.Acceptable, Valid;
    match x
    case Receive(request) => HandleOnCaches(env, a, t, request);
    case Elapse(us) => TimeKeepsCaches(env, a, t, us, 0);
    case Clock(faults) => TimeKeepsCaches(env, a, t, 0, faults);
    case Periodic => TimeKeepsCaches(env, a, t, 0, 0);
    case FrameSent =>
  }

  predicate SetCacheKept(env: Env, a: App, t: Trace, xs: seq<Action>)
    requires Valid(a) && H.AllEnabled(xs)
    decreases |xs|
  {
    xs == [] ||
    (KeepsSetCache(a, xs[0]) &&
     (H.NextValid(env, a, t, xs[0]);
      SetCacheKept(env, Next(env, a, t, xs[0]).0, Next(env, a, t, xs[0]).1, xs[1..])))
  }

  predicate CaptureCacheKept(env: Env, a: App, t: Trace, xs: seq<Action>)
    requires Valid(a) && H.AllEnabled(xs)
    decreases |xs|
  {
    xs == [] ||
    (KeepsCaptureCache(env, a, t, xs[0]) &&
     (H.NextValid(env, a, t, xs[0]);
      CaptureCacheKept(env, Next(env, a, t, xs[0]).0, Next(env, a, t, xs[0]).1, xs[1..])))
  }

  lemma {:induction false} SetCacheSurvives(env: Env, a: App, t: Trace, xs: seq<Action>)
    requires Valid(a) && H.AllEnabled(xs) && a.hello && SetCacheKept(env, a, t, xs)
    ensures var (b, u) := H.Run(env, a, t, xs); Valid(b) && b.setCache == a.setCache && b.hello
    decreases |xs|
  {
    hide Next, Valid, Enabled, H.AllEnabled, KeepsSetCache;
    if xs != [] {
      H.EnabledTail(xs);
      H.NextValid(env, a, t, xs[0]);
      SetCacheStays(env, a, t, xs[0]);
      var (b, u) := Next(env, a, t, xs[0]);
      SetCacheSurvives(env, b, u, xs[1..]);
    }
  }

  lemma {:induction false} CaptureCacheSurvives(env: Env, a: App, t: Trace, xs: seq<Action>)
    requires Valid(a) && H.AllEnabled(xs) && a.hello && CaptureCacheKept(env, a, t, xs)
    ensures var (b, u) := H.Run(env, a, t, xs); Valid(b) && b.captureCache == a.captureCache && b.hello
    decreases |xs|
  {
    hide Next, Valid, Enabled, H.AllEnabled, KeepsCaptureCache;
    if xs != [] {
      H.EnabledTail(xs);
      H.NextValid(env, a, t, xs[0]);
      CaptureCacheStays(env, a, t, xs[0]);
      var (b, u) := Next(env, a, t, xs[0]);
      CaptureCacheSurvives(env, b, u, xs[1..]);
    }
  }

  /** Captures, schedules, expiries, clock faults, a repeated HELLO and other commands in between
      change nothing: as long as the session lasts and no other SET_CONFIG was handled, a lost
      acknowledgement can be asked for again and comes back identical, without touching hardware. */
  lemma SetConfigRepeats(env: Env, a: App, t: Trace, request: F.Frame, xs: seq<Action>)
    requires Valid(a) && Dispatched(a, request, F.SET_CONFIG) && H.AllEnabled(xs) && SetCacheKept(env, a, t, xs)
    requires a.setCache.Some? && SameRequest(a.setCache.value, request)
    ensures var (b, u) := H.Run(env, a, t, xs);
            Valid(b) && Handle(env, b, u, request) == Step(b, u, a.setCache.value.response)
  {
    hide Next, SameRequest, P.PayloadRule, H.Run;
    SetCacheSurvives(env, a, t, xs);
  }

  /** The same for an acknowledged CAPTURE_ONCE, after its frame has gone out and anything but
      another acknowledged configuration or capture has happened: the same ACK and no hardware
      call; the frame held then becomes pending again. */
  lemma CaptureRepeats(env: Env, a: App, t: Trace, request: F.Frame, xs: seq<Action>)
    requires Valid(a) && Dispatched(a, request, F.CAPTURE_ONCE)
    requires Handle(env, a, t, request).response.messageType == F.ACK
    ensures var s := Handle(env, a, t, request);
            Valid(s.app) &&
            (H.AllEnabled(xs) && CaptureCacheKept(env, s.app, s.trace, xs) ==>
              var (b, u) := H.Run(env, s.app, s.trace, xs);
              Valid(b) && Handle(env, b, u, request) == Step(b.(capturePending := true), u, s.response))
  {
    hide Next, SameRequest, P.PayloadRule, H.Run, CaptureCacheKept, HandleCaptureOnce, H.AllEnabled, Valid, Handle;
    H.NextValid(env, a, t, Receive(request));
    CaptureRemembered(env, a, t, request);
    var s := Handle(env, a, t, request);
    assert Next(env, a, t, Receive(request)).0 == s.app by { NextIsHandle(env, a, t, request); }
    if H.AllEnabled(xs) && CaptureCacheKept(env, s.app, s.trace, xs) {
      CaptureCacheSurvives(env, s.app, s.trace, xs);
      var (b, u) := H.Run(env, s.app, s.trace, xs);
      CapturedAgain(env, b, u, request);
    }
  }

  lemma NextIsHandle(env: Env, a: App, t: Trace, request: F.Frame)
    requires Valid(a) && P.Acceptable(request)
    ensures Next(env, a, t, Receive(request)) == (Handle(env, a, t, request).app, Handle(env, a, t, request).trace)
  {
    hide Handle;
  }

  lemma CaptureRemembered(env: Env, a: App, t: Trace, request: F.Frame)
    requires Valid(a) && Dispatched(a, request, F.CAPTURE_ONCE)
    requires Handle(env, a, t, request).response.messageType == F.ACK
    ensures var s := Handle(env, a, t, request);
            s.app.hello && s.app.captureCache.Some? && SameRequest(s.app.captureCache.value, request) &&
            s.app.captureCache.value.response == s.response
  {
    hide HandleCaptureOnce, SameRequest, Valid;
    CaptureCached(env, a, t, request);
  }

  lemma CapturedAgain(env: Env, b: App, u: Trace, request: F.Frame)
    requires Valid(b) && Dispatched(b, request, F.CAPTURE_ONCE)
    requires b.captureCache.Some? && SameRequest(b.captureCache.value, request)
    ensures Handle(env, b, u, request) == Step(b.(capturePending := true), u, b.captureCache.value.response)
  {
    hide HandleCaptureOnce, SameRequest, Valid;
    CachedAnswered(env, b, u, request);
  }

  /** Handling the command is what fills the cache. */
  lemma SetConfigRemembered(env: Env, a: App, t: Trace, request: F.Frame)
    requires Valid(a) && |request.payload| == 120
    requires a.setCache.Some? ==> !SameId(a.setCache.value, request)
    ensures var s := HandleSetConfig(env, a, t, request);
            s.app.setCache.Some? && SameRequest(s.app.setCache.value, request) &&
            s.app.setCache.value.response == s.response
  {
    hide ExecuteSetConfig, Crc32.Checksum;
  }

  // ---------------------------------------------------------------- not quite a duplicate

  /** A request that reuses the identifier and sequence with a slightly different payload is never
      taken for a duplicate: it is refused, and nothing is called. */
  lemma AlteredRequestRefused(env: Env, a: App, t: Trace, f: F.Frame, g: F.Frame, i: nat, u: Trace)
    requires Valid(a) && |f.payload| == 120 && |g.payload| == 120
    requires a.setCache.Some? ==> !SameId(a.setCache.value, f)
    requires g.sequence == f.sequence && g.payload[..16] == f.payload[..16] && g.payload != f.payload
    requires i + 4 <= 120 && f.payload[..i] == g.payload[..i] && f.payload[i + 4..] == g.payload[i + 4..]
    ensures var s := HandleSetConfig(env, a, t, f);
            var r := HandleSetConfig(env, s.app, u, g);
            r.app == s.app && r.trace == u && r.response == Error(s.app, g, INVALID_MESSAGE, f.sequence, g.sequence)
  {
    hide ExecuteSetConfig, Error, Crc32.Checksum;
    Crc32.ChecksumsDiffer(f.payload, g.payload, i);
    SetConfigRemembered(env, a, t, f);
  }
}
