/** Host and firmware on the same payloads: what the host encodes is what the firmware's handlers
    act on, and what the firmware answers is what the host reads. */
module MessagesAgree {
  import opened Bytes
  import opened Packing
  import opened Delivery
  import opened FirmwareApp
  import D = DeviceMessages
  import Pr = Profile
  import T = Configurator
  import F = Frame
  import C = ConfigV2
  import S = Schedule
  import P = McuParser
  import Crc32
  import FW = FirmwareWire

  // ---------------------------------------------------------------- cutting payloads

  lemma WordAt(w: seq<byte>, i: nat)
    requires i + 4 <= |w|
    ensures U32At(w, i) == Unpack32(w[i..i + 4])
  {
  }

  lemma WordsAreLittleEndian()
    ensures forall v: u32 :: Pack32(v) == Le32(v)
    ensures forall v: u16 :: Pack16(v) == Le16(v)
  {
  }

  lemma NoId()
    ensures Zeros(16) == S.NO_ID
  {
  }

  lemma CaptureFields(id: seq<byte>, sha: seq<byte>, crc: seq<byte>, trigger: byte, timeout: seq<byte>)
    requires |id| == 16 && |sha| == 32 && |crc| == |timeout| == 4
    ensures var w := id + sha + crc + [trigger, 0, 0, 0] + timeout;
            |w| == 60 && w[..16] == id && w[16..48] == sha && w[48..52] == crc && w[52] == trigger &&
            w[53] == w[54] == w[55] == 0 && w[56..60] == timeout
  {
  }

  lemma StartFields(id: seq<byte>, schedule: seq<byte>, sha: seq<byte>, crc: seq<byte>, period: seq<byte>,
                    count: seq<byte>, timeout: seq<byte>)
    requires |id| == |schedule| == 16 && |sha| == 32 && |crc| == |period| == |count| == |timeout| == 4
    ensures var w := id + schedule + sha + crc + period + count + timeout;
            |w| == 80 && w[..16] == id && w[16..32] == schedule && w[32..64] == sha && w[64..68] == crc &&
            w[68..72] == period && w[72..76] == count && w[76..80] == timeout
  {
  }

  lemma LeaseFields(boot: seq<byte>, schedule: seq<byte>, sequence: seq<byte>, time: seq<byte>)
    requires |boot| == |schedule| == 16 && |sequence| == |time| == 4
    ensures var w := boot + schedule + sequence + time;
            |w| == 40 && w[..16] == boot && w[16..32] == schedule && w[32..36] == sequence && w[36..40] == time
  {
  }

  // ---------------------------------------------------------------- single captures

  /** The state from which a capture may be made. */
  predicate CaptureReady(a: App) {
    a.state == IdleSafe && a.configValid && a.clockFaults == 0 && a.config.pretrigger < 2048
  }

  predicate Names(a: App, sha: Hash32, crc: u32) {
    sha == a.config.sha && crc == a.config.crc
  }

  predicate NewCapture(a: App, requestId: Id16) {
    a.captureCache.Some? ==> a.captureCache.value.requestId != requestId
  }

  lemma CaptureReads(m: D.CaptureOnce, w: seq<byte>)
    requires D.EncodeCaptureOnce(m) == Some(w)
    ensures |w| == 60 && w[..16] == m.requestId && w[16..48] == m.sha && U32At(w, 48) == m.crc && w[52] == m.trigger &&
            w[53] == w[54] == w[55] == 0 && U32At(w, 56) == m.timeout
  {
    hide Pack32, Unpack32, U32At;
    Words();
    CaptureFields(m.requestId, m.sha, Pack32(m.crc), m.trigger, Pack32(m.timeout));
    WordAt(w, 48);
    WordAt(w, 56);
  }

  /** The firmware takes every single capture the host can ask for. A new one is made, with the
      trigger and timeout the host named, exactly when the device is ready and the request names the
      configuration in force; otherwise nothing is called. */
  lemma CaptureTaken(env: Env, a: App, t: Trace, m: D.CaptureOnce, w: seq<byte>, sequence: u32)
    requires D.EncodeCaptureOnce(m) == Some(w)
    ensures var request := F.Frame(F.CAPTURE_ONCE, sequence, w, 0);
            P.Acceptable(request) && |w| == 60 &&
            (Valid(a) && a.hello && NewCapture(a, m.requestId) ==>
              var s := Handle(env, a, t, request);
              var made := CaptureReady(a) && Names(a, m.sha, m.crc);
              (made <==> s.trace != t) &&
              (made ==>
                t < s.trace && s.trace[|t|].call == Apply(ProfileOf(a.config)) &&
                (s.trace[|t|].answer.result.Ok? ==>
                  |s.trace| == |t| + 3 &&
                  s.trace[|t| + 1].call == Capture(a.config, m.trigger, m.timeout, false))))
  {
    CaptureReads(m, w);
    hide Error, Ack, U32At, Pack32, CaptureErrorCode, MapConfigError, Complete, Valid;
  }

  // ---------------------------------------------------------------- schedules

  lemma StartReads(m: D.StartPeriodic, w: seq<byte>)
    requires D.EncodeStartPeriodic(m) == Some(w)
    ensures |w| == 80 && w[..16] == m.requestId && w[16..32] == m.scheduleId && w[32..64] == m.sha &&
            U32At(w, 64) == m.crc && U32At(w, 68) == m.period && U32At(w, 72) == m.count && U32At(w, 76) == m.timeout
  {
    hide Pack32, Unpack32, U32At;
    Words();
    StartFields(m.requestId, m.scheduleId, m.sha, Pack32(m.crc), Pack32(m.period), Pack32(m.count), Pack32(m.timeout));
    WordAt(w, 64);
    WordAt(w, 68);
    WordAt(w, 72);
    WordAt(w, 76);
  }

  predicate StartReady(a: App) {
    a.state == IdleSafe && a.configValid && !a.capturePending && a.clockFaults == 0 && !a.periodic.active
  }

  /** The firmware's parser takes a START of the host exactly when the scheduler could: the host
      allows any period, the firmware none under 100 ms. One that is taken is acknowledged exactly
      when the device is ready and the configuration named is the one in force, and then this
      schedule runs. */
  lemma StartTaken(env: Env, a: App, t: Trace, m: D.StartPeriodic, w: seq<byte>, sequence: u32)
    requires D.EncodeStartPeriodic(m) == Some(w)
    ensures var request := F.Frame(F.START_PERIODIC, sequence, w, 0);
            (P.Acceptable(request) <==> m.period >= S.MIN_PERIOD_US) &&
            (P.Acceptable(request) && Valid(a) && a.hello ==>
              var s := Handle(env, a, t, request);
              var accepted := StartReady(a) && Names(a, m.sha, m.crc);
              s.trace == t && s.response.messageType == (if accepted then F.ACK else F.ERROR) &&
              (accepted ==>
                s.app == a.(periodicRequestId := m.requestId, lastError := 0,
                            periodic := S.Timer(true, false, m.scheduleId, m.period, m.period, m.count, 0, 0, 0,
                                                m.timeout, 1000 * m.timeout))) &&
              (!accepted ==> s.app == a))
  {
    StartReads(m, w);
    NoId();
    hide U32At, Pack32, Valid, Zeros, Le16, Le32;
  }

  /** The rule of the parser for START payloads is what the scheduler accepts, with a timeout that
      fits its sixteen bits. */
  lemma StartRuleIsSchedulers(w: seq<byte>)
    requires |w| == 80
    ensures P.PayloadRule(F.START_PERIODIC, w) <==>
              U32At(w, 76) < 0x1_0000 &&
              S.Start(S.IDLE, w[16..32], U32At(w, 68), U32At(w, 72), U32At(w, 76) % 0x1_0000).1 == S.Ok
  {
    NoId();
    hide U32At, Zeros;
  }

  lemma LeaseReads(m: D.Lease)
    ensures var w := m.bootId + m.scheduleId + Pack32(m.sequence) + Pack32(m.time);
            |w| == 40 && w[..16] == m.bootId && w[16..32] == m.scheduleId && U32At(w, 32) == m.sequence &&
            U32At(w, 36) == m.time && (D.EncodeLease(m).Some? ==> D.DecodeLease(w) == Some(m))
  {
    hide Pack32, Unpack32, U32At;
    Words();
    var w := m.bootId + m.scheduleId + Pack32(m.sequence) + Pack32(m.time);
    LeaseFields(m.bootId, m.scheduleId, Pack32(m.sequence), Pack32(m.time));
    WordAt(w, 32);
    WordAt(w, 36);
  }

  /** A renewal of the host is taken exactly when its timeout is a lease the scheduler may grant.
      It is then the scheduler's renewal when it names this boot, and the host reads from the answer
      the schedule, its sequence and the whole milliseconds that remain. */
  lemma RenewTaken(env: Env, a: App, t: Trace, m: D.Lease, w: seq<byte>, sequence: u32)
    requires D.EncodeLease(m) == Some(w)
    ensures var request := F.Frame(F.RENEW_PERIODIC_LEASE, sequence, w, 0);
            (P.Acceptable(request) <==> m.time >= S.MIN_LEASE_MS) &&
            (P.Acceptable(request) && Valid(a) && a.hello ==>
              var s := Handle(env, a, t, request);
              var renewed := S.Renew(a.periodic, m.scheduleId, m.sequence, m.time);
              s.trace == t &&
              (s.response.messageType == F.RENEW_PERIODIC_LEASE <==> m.bootId == a.bootId && renewed.1 == S.Ok) &&
              (s.response.messageType == F.RENEW_PERIODIC_LEASE ==>
                s.app == a.(periodic := renewed.0) &&
                D.DecodeLease(s.response.payload) ==
                  Some(D.Lease(m.bootId, m.scheduleId, m.sequence, renewed.0.leaseRemaining / 1000))))
  {
    LeaseReads(m);
    NoId();
    WordsAreLittleEndian();
    hide Pack32, Le32, U32At, Zeros, D.DecodeLease;
    if Valid(a) && m.bootId == a.bootId && S.Renew(a.periodic, m.scheduleId, m.sequence, m.time % 0x1_0000).1 == S.Ok {
      var b := S.Renew(a.periodic, m.scheduleId, m.sequence, m.time % 0x1_0000).0;
      RenewedLease(a.periodic, m.scheduleId, m.sequence, m.time % 0x1_0000);
      LeaseReads(D.Lease(a.bootId, b.id, b.leaseSequence, S.LeaseRemainingMs(b)));
    }
  }

  lemma RenewedLease(s: S.Timer, id: Id16, sequence: u32, timeout: u16)
    requires S.Valid(s) && S.Renew(s, id, sequence, timeout).1 == S.Ok
    ensures var r := S.Renew(s, id, sequence, timeout).0;
            r.active && r.id == id && r.leaseSequence == sequence && S.LeaseRemainingMs(r) <= 10_000
  {
  }

  /** A STOP of the host is always taken, and it is acknowledged unless another schedule runs;
      afterwards none does and the hardware was made safe. */
  lemma StopTaken(env: Env, a: App, t: Trace, requestId: Id16, scheduleId: Id16, sequence: u32)
    ensures var request := F.Frame(F.STOP, sequence, D.EncodeStop(requestId, scheduleId), 0);
            P.Acceptable(request) &&
            (Valid(a) && a.hello ==>
              var s := Handle(env, a, t, request);
              var refused := a.periodic.active && a.periodic.id != scheduleId;
              s.response.messageType == (if refused then F.ERROR else F.ACK) &&
              (refused ==> s.app == a && s.trace == t) &&
              (!refused ==>
                s.app == a.(periodic := S.IDLE, lastError := 0) && |s.trace| == |t| + 1 && t < s.trace &&
                s.trace[|t|].call == ForceSafe))
  {
    var w := D.EncodeStop(requestId, scheduleId);
    assert |w| == 32 && w[16..32] == scheduleId;
    hide Valid, Le16, Le32;
  }

  // ---------------------------------------------------------------- sessions

  lemma HelloReads(nonce: Id16, minimum: byte, maximum: byte)
    ensures var w := nonce + [minimum, maximum, 0, 0];
            |w| == 20 && w[..16] == nonce && w[16] == minimum && w[17] == maximum && w[18] == 0 && w[19] == 0
  {
  }

  lemma HelloFields(m: D.Hello)
    ensures var w := m.nonce + m.bootId + m.deviceId + [m.version, m.resetReason] + Pack16(m.major) + Pack16(m.minor) +
                     Pack16(m.patch) + Pack32(m.build) + [m.state, 0, 0, 0];
            D.DecodeHello(w) == Some(m)
  {
    hide Pack16, Pack32, Unpack16, Unpack32;
    Words();
    HelloCut(m.nonce, m.bootId, m.deviceId, [m.version, m.resetReason], Pack16(m.major), Pack16(m.minor),
             Pack16(m.patch), Pack32(m.build), [m.state, 0, 0, 0]);
    assert Zeros(3) == [0, 0, 0];
  }

  lemma HelloCut(nonce: seq<byte>, boot: seq<byte>, device: seq<byte>, versions: seq<byte>, major: seq<byte>,
                 minor: seq<byte>, patch: seq<byte>, build: seq<byte>, end: seq<byte>)
    requires |nonce| == |boot| == |device| == 16 && |versions| == |major| == |minor| == |patch| == 2
    requires |build| == |end| == 4
    ensures var w := nonce + boot + device + versions + major + minor + patch + build + end;
            |w| == 64 && w[..16] == nonce && w[16..32] == boot && w[32..48] == device && w[48] == versions[0] &&
            w[49] == versions[1] && w[50..52] == major && w[52..54] == minor && w[54..56] == patch &&
            w[56..60] == build && w[60] == end[0] && w[61..64] == end[1..]
  {
  }

  /** A HELLO is taken exactly when it offers version 1. The host then reads its own nonce, the
      boot identifier this session will be known by, and the state the device is now in. */
  lemma HelloTaken(env: Env, a: App, t: Trace, nonce: Id16, minimum: byte, maximum: byte, w: seq<byte>, sequence: u32)
    requires D.EncodeHello(nonce, minimum, maximum) == Some(w)
    ensures var request := F.Frame(F.HELLO, sequence, w, 0);
            (P.Acceptable(request) <==> minimum <= F.VERSION <= maximum) &&
            (P.Acceptable(request) && Valid(a) ==>
              var s := Handle(env, a, t, request);
              s.app.hello && s.app.hostNonce == nonce && s.app.bootId == env.bootId(a.deviceId, nonce) &&
              s.response.messageType == F.HELLO &&
              D.DecodeHello(s.response.payload) ==
                Some(D.Hello(nonce, s.app.bootId, a.deviceId, F.VERSION, a.resetReason, 0, 2, 0, 2, StateCode(s.app.state))))
  {
    HelloReads(nonce, minimum, maximum);
    WordsAreLittleEndian();
    var request := F.Frame(F.HELLO, sequence, w, 0);
    hide Valid, D.DecodeHello, Pack16, Pack32, Le16, Le32;
    if P.Acceptable(request) && Valid(a) {
      var s := Handle(env, a, t, request);
      HelloFields(D.Hello(nonce, s.app.bootId, a.deviceId, 1, a.resetReason, 0, 2, 0, 2, StateCode(s.app.state)));
    }
  }

  // ---------------------------------------------------------------- what the device reports

  /** A request without a payload, in an open session. */
  function Ask(messageType: byte, sequence: u32): F.Frame {
    F.Frame(messageType, sequence, [], 0)
  }

  /** The reported capabilities are the bounds the firmware enforces: its parser takes no longer
      command, and it accepts no configuration outside the ranges. */
  lemma CapabilitiesRead(env: Env, a: App, t: Trace, sequence: u32)
    ensures var request := Ask(F.GET_CAPABILITIES, sequence);
            P.Acceptable(request) &&
            (Valid(a) && a.hello ==>
              var s := Handle(env, a, t, request);
              s.app == a && s.trace == t && s.response.messageType == F.GET_CAPABILITIES &&
              var read := D.DecodeCapabilities(s.response.payload);
              read.Some? && WithinCapabilities(read.value))
  {
    hide D.DecodeCapabilities, WithinCapabilities, Valid, Le16, Le32, Unpack16, Unpack32;
    CapabilityWords();
    CapabilityFields(Le32(0x7F), Le16(192), Le16(2048), Le16(120), Le16(960), Le16(24), Le16(800));
    ConfigsWithin();
  }

  lemma CapabilityWords()
    ensures Unpack32(Le32(0x7F)) == 0x7F && Unpack16(Le16(192)) == 192 && Unpack16(Le16(2048)) == 2048
    ensures Unpack16(Le16(120)) == 120 && Unpack16(Le16(960)) == 960 && Unpack16(Le16(24)) == 24
    ensures Unpack16(Le16(800)) == 800
  {
  }

  lemma CapabilityFields(flags: seq<byte>, payload: seq<byte>, samples: seq<byte>, low: seq<byte>, high: seq<byte>,
                         short: seq<byte>, long: seq<byte>)
    requires |flags| == 4 && |payload| == |samples| == |low| == |high| == |short| == |long| == 2
    requires Unpack32(flags) <= 0x1FF && Unpack16(low) <= Unpack16(high) && Unpack16(short) <= Unpack16(long)
    ensures var w := flags + payload + samples + low + high + short + long + [10, 1, 16, 12, 0x0F, 0, 0, 0];
            D.DecodeCapabilities(w) ==
              Some(D.Capabilities(Unpack32(flags), Unpack16(payload), Unpack16(samples), Unpack16(low), Unpack16(high),
                                  Unpack16(short), Unpack16(long), 10, 1, 16, 12, 0x0F))
  {
    hide Unpack16, Unpack32;
    var w := flags + payload + samples + low + high + short + long + [10, 1, 16, 12, 0x0F, 0, 0, 0];
    assert w[..4] == flags && w[4..6] == payload && w[6..8] == samples && w[8..10] == low && w[10..12] == high;
    assert w[12..14] == short && w[14..16] == long && w[21..24] == Zeros(3);
  }

  ghost predicate WithinCapabilities(m: D.Capabilities) {
    m.maxPayload == P.MAX_PAYLOAD && m.maxRegisters == Pr.REGISTER_COUNT &&
    forall c: C.Config :: C.IsStruct(c) && C.FirmwareValid(c) ==>
      m.minInterval <= c.interval <= m.maxInterval && m.minBurst <= c.burst <= m.maxBurst &&
      c.sampleCount == m.maxSamples && c.adcBits == m.adcBits
  }

  lemma ConfigsWithin()
    ensures WithinCapabilities(D.Capabilities(0x7F, 192, 2048, 120, 960, 24, 800, 10, 1, 16, 12, 0x0F))
  {
    hide Pr.CheckImage, Pr.And;
  }

  lemma StatusFields(m: D.Status)
    ensures var w := m.bootId + [m.state, 0] + Pack16(m.lastError) + m.sha + Pack32(m.crc) + Pack32(m.captureSequence) +
                     Pack32(m.missed) + Pack32(m.quality) + [m.devStat, m.vdrvReady, m.out3Enabled, m.out4Enabled] +
                     Pack16(m.clockFaults) + [0, 0] + m.scheduleId + Pack32(m.leaseSequence) + Pack32(m.leaseRemaining);
            |w| == 100 && D.DecodeStatus(w) == if D.StatusValid(m) then Some(m) else None
  {
    hide Pack16, Pack32, Unpack16, Unpack32, D.StatusValid;
    Words();
    StatusCut(m.bootId, [m.state, 0], Pack16(m.lastError), m.sha, Pack32(m.crc), Pack32(m.captureSequence),
              Pack32(m.missed), Pack32(m.quality), [m.devStat, m.vdrvReady, m.out3Enabled, m.out4Enabled],
              Pack16(m.clockFaults), [0, 0], m.scheduleId, Pack32(m.leaseSequence), Pack32(m.leaseRemaining));
    assert Zeros(2) == [0, 0];
  }

  lemma StatusCut(boot: seq<byte>, state: seq<byte>, error: seq<byte>, sha: seq<byte>, crc: seq<byte>, captures: seq<byte>,
                  missed: seq<byte>, quality: seq<byte>, levels: seq<byte>, faults: seq<byte>, gap: seq<byte>,
                  id: seq<byte>, sequence: seq<byte>, remaining: seq<byte>)
    requires |boot| == |id| == 16 && |sha| == 32 && |state| == |error| == |faults| == |gap| == 2 && |levels| == 4
    requires |crc| == |captures| == |missed| == |quality| == |sequence| == |remaining| == 4
    ensures var w := boot + state + error + sha + crc + captures + missed + quality + levels + faults + gap + id +
                     sequence + remaining;
            |w| == 100 && w[..16] == boot && w[16] == state[0] && w[17] == state[1] && w[18..20] == error &&
            w[20..52] == sha && w[52..56] == crc && w[56..60] == captures && w[60..64] == missed &&
            w[64..68] == quality && w[68] == levels[0] && w[69] == levels[1] && w[70] == levels[2] && w[71] == levels[3] &&
            w[72..74] == faults && w[74..76] == gap && w[76..92] == id && w[92..96] == sequence && w[96..100] == remaining
  {
  }

  function Level(v: nat, mask: nat): byte {
    if Pr.And(v, mask) != 0 then 1 else 0
  }

  /** What the host is told about the device. */
  function Reported(a: App): D.Status
    requires Valid(a)
  {
    D.Status(a.bootId, StateCode(a.state), a.lastError,
             if a.configValid then a.config.sha else Zeros(32), if a.configValid then a.config.crc else 0,
             a.captureSequence, a.periodic.missed, 0x20, a.lastDevStat, Level(a.lastDevStat, 0x08),
             if a.configValid then Level(a.config.auxFlags, 0x01) else 0,
             if a.configValid then Level(a.config.auxFlags, 0x02) else 0, a.clockFaults,
             if a.periodic.active then a.periodic.id else Zeros(16),
             if a.periodic.active then a.periodic.leaseSequence else 0,
             if a.periodic.active then a.periodic.leaseRemaining / 1000 else 0)
  }

  /** The host reads this report, and fails to exactly when a reserved clock fault bit is set. */
  lemma StatusRead(env: Env, a: App, t: Trace, sequence: u32)
    ensures var request := Ask(F.GET_STATUS, sequence);
            P.Acceptable(request) &&
            (Valid(a) && a.hello ==>
              var s := Handle(env, a, t, request);
              s.app == a && s.trace == t && s.response.messageType == F.GET_STATUS &&
              D.DecodeStatus(s.response.payload) == if a.clockFaults <= 0x0F then Some(Reported(a)) else None)
  {
    NoId();
    WordsAreLittleEndian();
    hide D.DecodeStatus, Pack16, Pack32, Le16, Le32, Zeros, Pr.And;
    if Valid(a) && a.hello {
      var m := Reported(a);
      StatusFields(m);
      assert D.StatusValid(m) <==> a.clockFaults <= 0x0F;
    }
  }

  // ---------------------------------------------------------------- acknowledgements and errors

  /** Every ACK is read as acknowledging its own request, with the state and the checksum of the
      configuration the device is now in. */
  lemma AckRead(a: App, request: F.Frame)
    requires |request.payload| >= 16
    ensures D.DecodeAck(Ack(a, request).payload) ==
              Some(D.Acknowledged(request.payload[..16], request.messageType, StateCode(a.state), Crc(a)))
  {
    WordsAreLittleEndian();
    Words();
    hide Le32, Pack32, Unpack32;
    var id, crc := request.payload[..16], Le32(Crc(a));
    var w := Ack(a, request).payload;
    assert w == id + [request.messageType, StateCode(a.state), 0, 0] + crc;
    assert w[..16] == id && w[18..20] == [0, 0] && w[20..24] == crc;
  }

  /** Every ERROR is read with its request's identifier and type, its code and both details. */
  lemma ErrorRead(a: App, request: F.Frame, code: u16, detail0: u32, detail1: u32)
    ensures D.DecodeError(Error(a, request, code, detail0, detail1).payload) ==
              Some(D.DeviceError(if |request.payload| >= 16 then request.payload[..16] else Zeros(16),
                                 request.messageType, StateCode(a.state), code, detail0, detail1, []))
  {
    var id: seq<byte> := if |request.payload| >= 16 then request.payload[..16] else Zeros(16);
    ErrorCut(id, request.messageType, StateCode(a.state), Le16(code), Le32(detail0), Le32(detail1));
    WordsAreLittleEndian();
    Words();
    hide Le16, Le32, Pack16, Pack32, Unpack16, Unpack32;
  }

  lemma ErrorCut(id: seq<byte>, kind: byte, state: byte, code: seq<byte>, detail0: seq<byte>, detail1: seq<byte>)
    requires |id| == 16 && |code| == 2 && |detail0| == |detail1| == 4
    ensures var w := id + [kind, state] + code + detail0 + detail1 + [0];
            |w| == 29 && w[..16] == id && w[16] == kind && w[17] == state && w[18..20] == code &&
            w[20..24] == detail0 && w[24..28] == detail1 && w[28] == 0 && w[29..] == []
  {
  }

  // ---------------------------------------------------------------- the loopback check

  lemma LoopbackReads(requestId: Id16, sha: Hash32, crc: u32)
    ensures var w := requestId + sha + Pack32(crc) + [8, 0, 0, 0];
            |w| == 56 && w[..16] == requestId && w[16..48] == sha && U32At(w, 48) == crc && w[52..56] == [8, 0, 0, 0]
  {
    hide Pack32, Unpack32, U32At;
    Words();
    var w := requestId + sha + Pack32(crc) + [8, 0, 0, 0];
    assert w[..16] == requestId && w[16..48] == sha && w[48..52] == Pack32(crc) && w[52..56] == [8, 0, 0, 0];
    WordAt(w, 48);
  }

  lemma LoopbackFields(id: seq<byte>, sha: seq<byte>, crc: u32, burst: u16, image: Hash32)
    requires |id| == 16 && |sha| == 32
    ensures var w := id + sha + Le32(crc) + Le16(burst) + image;
            |w| == 86 &&
            D.DecodeLoopback(w) ==
              if image[31] == 0 && image[1] <= 0x3F then Some(D.Loopback(id, sha, crc, burst, image)) else None
  {
    WordsAreLittleEndian();
    Words();
    hide Le16, Le32, Pack16, Pack32, Unpack16, Unpack32;
    var w := id + sha + Le32(crc) + Le16(burst) + image;
    assert w[..16] == id && w[16..48] == sha && w[48..52] == Le32(crc) && w[52..54] == Le16(burst) && w[54..86] == image;
  }

  lemma ErrorType(a: App, request: F.Frame)
    ensures forall code, x, y :: Error(a, request, code, x, y).messageType == F.ERROR
  {
  }

  predicate NewLoopback(a: App, requestId: Id16) {
    a.loopbackCache.Some? ==> a.loopbackCache.value.requestId != requestId
  }

  /** The loopback check is taken whenever the host asks for its eight edges. A new one drives the
      hardware exactly when the device is ready and runs the bench baseline the request names; the
      host then reads that configuration's identity and the evidence as the hardware gave it. */
  lemma LoopbackTaken(env: Env, a: App, t: Trace, requestId: Id16, sha: Hash32, crc: u32, w: seq<byte>, sequence: u32)
    requires D.EncodeLoopback(requestId, sha, crc, 8) == Some(w)
    ensures var request := F.Frame(F.RUN_IO2_LOOPBACK_TEST, sequence, w, 0);
            P.Acceptable(request) && |w| == 56 &&
            (Valid(a) && a.hello && NewLoopback(a, requestId) ==>
              var s := Handle(env, a, t, request);
              var baseline := BaselineConfig(env.sha);
              var made := a.state == IdleSafe && a.configValid && a.clockFaults == 0 && Names(a, sha, crc) &&
                          Names(a, baseline.sha, baseline.crc);
              (made <==> s.trace != t) &&
              (made ==>
                var ran := Issue(env, t, Loopback(a.config.burst));
                s.trace == t + [ran] &&
                s.response.messageType == (if ran.answer.ok then F.RUN_IO2_LOOPBACK_TEST else F.ERROR) &&
                (ran.answer.ok && ran.answer.image[31] == 0 && ran.answer.image[1] <= 0x3F ==>
                  D.DecodeLoopback(s.response.payload) ==
                    Some(D.Loopback(requestId, sha, crc, a.config.burst, ran.answer.image)))))
  {
    LoopbackReads(requestId, sha, crc);
    hide Pack32, U32At, Valid, BaselineConfig, Error, D.DecodeLoopback, Le16, Le32;
    var ran := Issue(env, t, Loopback(a.config.burst));
    assert t + [ran] != t by { assert |t + [ran]| == |t| + 1; }
    ErrorType(a, F.Frame(F.RUN_IO2_LOOPBACK_TEST, sequence, w, 0));
    LoopbackFields(requestId, a.config.sha, a.config.crc, a.config.burst, ran.answer.image);
  }

  // ---------------------------------------------------------------- how sessions and schedules end

  /** Nothing a request of an earlier session left behind. */
  predicate Forgotten(a: App) {
    a.setCache.None? && a.loopbackCache.None? && a.captureCache.None? && !a.capturePending && a.periodic == S.IDLE
  }

  predicate SameSession(a: App, b: App) {
    b.setCache == a.setCache && b.loopbackCache == a.loopbackCache && b.captureCache == a.captureCache &&
    b.capturePending == a.capturePending && b.periodic == a.periodic && b.configValid == a.configValid
  }

  /** A HELLO with another nonce makes the hardware safe and forgets everything of the session before;
      otherwise nothing is forgotten or called. Either way the device is ready for commands unless it
      is in Fault, where it stays or where a failed safe transition puts it. */
  lemma HelloBegins(env: Env, a: App, t: Trace, request: F.Frame)
    requires Valid(a) && P.Acceptable(request) && request.flags == 0 && request.messageType == F.HELLO
    ensures var s := Handle(env, a, t, request);
            var ends := a.hello && a.hostNonce != request.payload[..16];
            var safe := Issue(env, t, ForceSafe);
            s.app.config == a.config && s.app.clockFaults == a.clockFaults && s.app.state != SessionWait &&
            (a.state == Fault ==> s.app.state == Fault) &&
            (ends ==>
              s.trace == t + [safe] && Forgotten(s.app) &&
              s.app.configValid == (a.configValid && safe.answer.result == T.Ok) &&
              (a.state != Fault ==> s.app.state == if safe.answer.result == T.Ok then IdleSafe else Fault)) &&
            (!ends ==>
              s.trace == t && SameSession(a, s.app) &&
              s.app.state == if a.state == SessionWait then IdleSafe else a.state)
  {
    hide Valid, Le16, Le32;
  }

  /** The end of a session forgets it and closes the device to all but a HELLO. */
  lemma SessionEnds(env: Env, a: App, t: Trace, request: F.Frame)
    requires Valid(a)
    ensures var (b, u) := EndSession(env, a, t);
            Valid(b) && Forgotten(b) && u == t + [Issue(env, t, ForceSafe)] &&
            (b.state == SessionWait || b.state == Fault) &&
            (b.state == Fault <==> a.state == Fault || env.hardware(t, ForceSafe).result != T.Ok) &&
            (P.Acceptable(request) && request.messageType != F.HELLO ==>
              Handle(env, b, u, request).app == b && Handle(env, b, u, request).trace == u &&
              Handle(env, b, u, request).response.messageType == F.ERROR)
  {
    ErrorType(EndSession(env, a, t).0, request);
    hide Error, P.PayloadRule;
  }

  /** What the next GET_STATUS is read as. */
  predicate Reads(env: Env, a: App, t: Trace, sequence: u32, lastError: u16, faults: u16)
    requires Valid(a)
  {
    var ask := Ask(F.GET_STATUS, sequence);
    P.Acceptable(ask) &&
    var read := D.DecodeStatus(Handle(env, a, t, ask).response.payload);
    read.Some? && read.value.lastError == lastError && read.value.clockFaults == faults &&
    read.value.scheduleId == Zeros(16) && read.value.leaseRemaining == 0
  }

  lemma ReadsEnded(env: Env, a: App, t: Trace, sequence: u32)
    requires Valid(a) && a.hello && !a.periodic.active && a.clockFaults <= 0x0F
    ensures Reads(env, a, t, sequence, a.lastError, a.clockFaults)
  {
    StatusRead(env, a, t, sequence);
    hide Handle, D.DecodeStatus, P.Acceptable, Valid, Zeros;
  }

  /** A schedule that ends by itself is always explained: its lease ran out, a clock fault was
      latched, or a capture failed, and each time the hardware was made safe last. */
  lemma EndsAreReported(env: Env, a: App, t: Trace, us: u32, faults: u16, sequence: u32)
    requires Valid(a) && a.hello && a.periodic.active && a.clockFaults == 0 && 0 < faults <= 0x0F
    ensures var (b, u) := AdvanceTime(env, a, t, us);
            Valid(b) && (b.periodic.active <==> us < a.periodic.leaseRemaining) &&
            (!b.periodic.active ==>
              u == t + [Issue(env, t, ForceSafe)] && Reads(env, b, u, sequence, LEASE_EXPIRED, 0))
    ensures var (b, u) := UpdateClockFaults(env, a, t, faults);
            Valid(b) && u == t + [Issue(env, t, ForceSafe)] && Reads(env, b, u, sequence, TIMING_UNCALIBRATED, faults)
    ensures var (b, u) := RunPeriodic(env, a, t);
            Valid(b) &&
            (PeriodicDue(a) && !b.capturePending ==>
              u != [] && u[|u| - 1].call == ForceSafe &&
              (Reads(env, b, u, sequence, TUSS_DRIVER_FAULT, 0) || Reads(env, b, u, sequence, ADC_DMA_TIMEOUT, 0)))
  {
    var (b, u) := AdvanceTime(env, a, t, us);
    ExpiryEnds(env, a, t, us, faults);
    if !b.periodic.active {
      ReadsEnded(env, b, u, sequence);
    }
    var (c, v) := UpdateClockFaults(env, a, t, faults);
    ReadsEnded(env, c, v, sequence);
    var (d, w) := RunPeriodic(env, a, t);
    FailureEnds(env, a, t);
    if PeriodicDue(a) && !d.capturePending {
      ReadsEnded(env, d, w, sequence);
    }
    hide AdvanceTime, UpdateClockFaults, RunPeriodic, Reads, Valid;
  }

  lemma ExpiryEnds(env: Env, a: App, t: Trace, us: u32, faults: u16)
    requires Valid(a) && a.hello && a.periodic.active && a.clockFaults == 0 && 0 < faults
    ensures var (b, u) := AdvanceTime(env, a, t, us);
            Valid(b) && b.hello && b.clockFaults == 0 && (b.periodic.active <==> us < a.periodic.leaseRemaining) &&
            (!b.periodic.active ==> b.lastError == LEASE_EXPIRED && u == t + [Issue(env, t, ForceSafe)])
    ensures var (b, u) := UpdateClockFaults(env, a, t, faults);
            Valid(b) && b.hello && b.clockFaults == faults && !b.periodic.active && b.lastError == TIMING_UNCALIBRATED &&
            u == t + [Issue(env, t, ForceSafe)]
  {
    S.OperationsKeepValid(a.periodic, S.NO_ID, 0, 0, 0, 0, us);
    hide S.Div, S.Mod, S.Wrap;
  }

  lemma FailureEnds(env: Env, a: App, t: Trace)
    requires Valid(a) && a.hello
    ensures var (b, u) := RunPeriodic(env, a, t);
            Valid(b) && b.hello && b.clockFaults == a.clockFaults &&
            (PeriodicDue(a) && !b.capturePending ==>
              !b.periodic.active && u != [] && u[|u| - 1].call == ForceSafe &&
              (b.lastError == TUSS_DRIVER_FAULT || b.lastError == ADC_DMA_TIMEOUT))
  {
    S.OperationsKeepValid(a.periodic, S.NO_ID, 0, 0, 0, 0, 0);
    hide Complete, S.Wrap;
  }

  // ---------------------------------------------------------------- what reaches no handler

  /** A request with flags, one outside a session, and one of a type the firmware does not know each
      change and call nothing, and the host is told which it was. */
  lemma RefusalsRead(env: Env, a: App, t: Trace, request: F.Frame)
    requires Valid(a) && P.Acceptable(request)
    ensures var s := Handle(env, a, t, request);
            var inSession := a.hello || request.messageType == F.HELLO;
            request.flags != 0 || !inSession || !FW.HandledType(request.messageType) ==>
              s.app == a && s.trace == t &&
              var code := if request.flags != 0 then INVALID_MESSAGE
                          else if !inSession then INVALID_STATE else UNSUPPORTED_TYPE;
              D.DecodeError(s.response.payload) ==
                Some(D.DeviceError(if |request.payload| >= 16 then request.payload[..16] else Zeros(16),
                                   request.messageType, StateCode(a.state), code, request.flags, 0, []))
  {
    ErrorRead(a, request, INVALID_MESSAGE, request.flags, 0);
    ErrorRead(a, request, INVALID_STATE, 0, 0);
    ErrorRead(a, request, UNSUPPORTED_TYPE, 0, 0);
    hide Error, D.DecodeError, P.Acceptable, Valid, HandleHello, HandleSetConfig, HandleLoopback, HandleCaptureOnce, HandleStart,
      HandleRenew, HandleStop, HandleGetConfig, HandleGetStatus, HandleGetCapabilities;
  }
}
