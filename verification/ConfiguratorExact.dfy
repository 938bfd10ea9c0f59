/** When a configuration succeeds, and what each failure code means, in terms of what happened on
    the bus: every result has its own cause there, and no other. */
module ConfiguratorExact {
  import opened Bytes
  import opened CaptureData
  import opened Profile
  import opened Configurator

  // ---------------------------------------------------------------- what can happen

  /** The operation was answered, successfully or not. */
  predicate Happened(u: Trace, i: nat, operation: Operation, ok: bool) {
    i < |u| && u[i].operation == operation && u[i].ok == ok
  }

  predicate Identified(u: Trace, b: nat) {
    Happened(u, b, Read(DEVICE_ID), true) && u[b].value == 0xB9 &&
    Happened(u, b + 1, Read(REV_ID), true) && u[b + 1].value == 0x02
  }

  predicate VerifiedTo(u: Trace, b: nat, steps: seq<RegisterPair>, n: nat) {
    n <= |steps| && forall k :: 0 <= k < n ==> VerifiedAt(u, b + 2 * k, steps[k])
  }

  /** One verified write that failed: the write or the read back was not answered, or it read
      something else. */
  predicate StepFails(u: Trace, i: nat, step: RegisterPair, r: Result) {
    match r
    case BusError =>
      Happened(u, i, Write(step.address, step.value), false) ||
      (Happened(u, i, Write(step.address, step.value), true) && Happened(u, i + 1, Read(step.address), false))
    case ReadbackError =>
      Happened(u, i, Write(step.address, step.value), true) && Happened(u, i + 1, Read(step.address), true) &&
      u[i + 1].value != step.value
    case _ => false
  }

  predicate PlanFails(u: Trace, b: nat, steps: seq<RegisterPair>, r: Result) {
    exists k :: 0 <= k < |steps| && VerifiedTo(u, b, steps, k) && StepFails(u, b + 2 * k, steps[k], r)
  }

  /** Where the status read of each poll is: behind its delay when the supply is waited for. */
  function PollAt(b: nat, needed: bool, k: nat): nat {
    if needed then b + 2 * k + 1 else b + k
  }

  /** A status without a fault that does not show the supply ready yet. */
  predicate Waiting(u: Trace, i: nat, needed: bool) {
    needed && Happened(u, i, Read(DEV_STAT), true) && And(u[i].value, 0x07) == 0 && And(u[i].value, 0x08) == 0
  }

  predicate WaitedTo(u: Trace, b: nat, needed: bool, n: nat) {
    forall k :: 0 <= k < n ==> Waiting(u, PollAt(b, needed, k), needed)
  }

  predicate PollGives(u: Trace, i: nat, needed: bool, r: Result) {
    match r
    case Ok => i < |u| && Settled(u[i], needed)
    case BusError => Happened(u, i, Read(DEV_STAT), false)
    case DriverFault => Happened(u, i, Read(DEV_STAT), true) && And(u[i].value, 0x07) != 0
    case _ => false
  }

  predicate Polled(u: Trace, b: nat, needed: bool, polls: nat, r: Result) {
    if r == VdrvTimeout then WaitedTo(u, b, needed, polls)
    else exists n :: 0 <= n < polls && WaitedTo(u, b, needed, n) && PollGives(u, PollAt(b, needed, n), needed, r)
  }

  function Polls(p: Profile, limit: u16): nat
    requires |p.registers| == REGISTER_COUNT
  {
    if NeedsVdrv(p) then limit else 1
  }

  /** Both identity reads matched and all fourteen writes were read back equal. */
  predicate Planned(u: Trace, b: nat, p: Profile)
    requires |p.registers| == REGISTER_COUNT
  {
    Identified(u, b) && VerifiedTo(u, b + 2, Steps(p), |Steps(p)|)
  }

  /** What must have been seen on the bus from position b for this result. */
  predicate Cause(u: Trace, b: nat, p: Profile, limit: u16, r: Result)
    requires |p.registers| == REGISTER_COUNT
  {
    if ValidateProfile(p) != ProfileOk then r == InvalidProfile
    else
      match r
      case InvalidProfile => false
      case WrongIdentity =>
        Happened(u, b, Read(DEVICE_ID), true) && Happened(u, b + 1, Read(REV_ID), true) && !Identified(u, b)
      case ReadbackError => Identified(u, b) && PlanFails(u, b + 2, Steps(p), r)
      case BusError =>
        Happened(u, b, Read(DEVICE_ID), false) ||
        (Happened(u, b, Read(DEVICE_ID), true) && Happened(u, b + 1, Read(REV_ID), false)) ||
        (Identified(u, b) && PlanFails(u, b + 2, Steps(p), r)) ||
        (Planned(u, b, p) && Polled(u, b + 2 + 2 * |Steps(p)|, NeedsVdrv(p), Polls(p, limit), r))
      case _ => Planned(u, b, p) && Polled(u, b + 2 + 2 * |Steps(p)|, NeedsVdrv(p), Polls(p, limit), r)
  }

  // ---------------------------------------------------------------- later events change nothing

  lemma PlanFailsStays(u: Trace, w: Trace, b: nat, steps: seq<RegisterPair>, r: Result)
    requires u <= w && PlanFails(u, b, steps, r)
    ensures PlanFails(w, b, steps, r)
  {
    var k :| 0 <= k < |steps| && VerifiedTo(u, b, steps, k) && StepFails(u, b + 2 * k, steps[k], r);
    VerifiedStays(u, w, b, steps, k);
    assert StepFails(w, b + 2 * k, steps[k], r);
  }

  lemma VerifiedStays(u: Trace, w: Trace, b: nat, steps: seq<RegisterPair>, n: nat)
    requires u <= w && VerifiedTo(u, b, steps, n)
    ensures VerifiedTo(w, b, steps, n)
  {
    forall k | 0 <= k < n ensures VerifiedAt(w, b + 2 * k, steps[k]) {
      assert VerifiedAt(u, b + 2 * k, steps[k]);
    }
  }

  lemma WaitedStays(u: Trace, w: Trace, b: nat, needed: bool, n: nat)
    requires u <= w && WaitedTo(u, b, needed, n)
    ensures WaitedTo(w, b, needed, n)
  {
    hide And;
    forall k | 0 <= k < n ensures Waiting(w, PollAt(b, needed, k), needed) {
      assert Waiting(u, PollAt(b, needed, k), needed);
    }
  }

  lemma PolledStays(u: Trace, w: Trace, b: nat, needed: bool, polls: nat, r: Result)
    requires u <= w && Polled(u, b, needed, polls, r)
    ensures Polled(w, b, needed, polls, r)
  {
    hide And;
    if r == VdrvTimeout {
      WaitedStays(u, w, b, needed, polls);
    } else {
      var n :| 0 <= n < polls && WaitedTo(u, b, needed, n) && PollGives(u, PollAt(b, needed, n), needed, r);
      WaitedStays(u, w, b, needed, n);
      assert PollGives(w, PollAt(b, needed, n), needed, r);
    }
  }

  // ---------------------------------------------------------------- one cause only

  lemma StepFailsOnce(u: Trace, i: nat, step: RegisterPair, r: Result, q: Result)
    requires StepFails(u, i, step, r)
    ensures !VerifiedAt(u, i, step) && (StepFails(u, i, step, q) ==> q == r) && (r == BusError || r == ReadbackError)
  {
  }

  lemma PlanFailsOnce(u: Trace, b: nat, steps: seq<RegisterPair>, r: Result, q: Result)
    requires PlanFails(u, b, steps, r)
    ensures !VerifiedTo(u, b, steps, |steps|) && (PlanFails(u, b, steps, q) ==> q == r)
    ensures r == BusError || r == ReadbackError
  {
    hide StepFails, VerifiedTo;
    var k :| 0 <= k < |steps| && VerifiedTo(u, b, steps, k) && StepFails(u, b + 2 * k, steps[k], r);
    NotVerifiedPast(u, b, steps, k, r, |steps|);
    if PlanFails(u, b, steps, q) {
      var j :| 0 <= j < |steps| && VerifiedTo(u, b, steps, j) && StepFails(u, b + 2 * j, steps[j], q);
      NotVerifiedPast(u, b, steps, k, r, j);
      NotVerifiedPast(u, b, steps, j, q, k);
      StepFailsOnce(u, b + 2 * k, steps[k], r, q);
    }
  }

  lemma NotVerifiedPast(u: Trace, b: nat, steps: seq<RegisterPair>, k: nat, r: Result, n: nat)
    requires k < |steps| && StepFails(u, b + 2 * k, steps[k], r)
    ensures k < n ==> !VerifiedTo(u, b, steps, n)
    ensures r == BusError || r == ReadbackError
  {
    StepFailsOnce(u, b + 2 * k, steps[k], r, r);
    hide StepFails, VerifiedAt;
  }

  lemma PollGivesOnce(u: Trace, i: nat, needed: bool, r: Result, q: Result)
    requires PollGives(u, i, needed, r)
    ensures !Waiting(u, i, needed) && (PollGives(u, i, needed, q) ==> q == r)
    ensures r == Ok || r == BusError || r == DriverFault
  {
    hide And;
  }

  lemma PolledOnce(u: Trace, b: nat, needed: bool, polls: nat, r: Result, q: Result)
    requires Polled(u, b, needed, polls, r) && Polled(u, b, needed, polls, q)
    ensures r == q && (r == Ok || r == BusError || r == DriverFault || r == VdrvTimeout)
  {
    hide PollGives, Waiting;
    if r != VdrvTimeout {
      var n :| 0 <= n < polls && WaitedTo(u, b, needed, n) && PollGives(u, PollAt(b, needed, n), needed, r);
      PollGivesOnce(u, PollAt(b, needed, n), needed, r, q);
      if q != VdrvTimeout {
        var m :| 0 <= m < polls && WaitedTo(u, b, needed, m) && PollGives(u, PollAt(b, needed, m), needed, q);
        PollGivesOnce(u, PollAt(b, needed, m), needed, q, r);
        assert n == m;
      }
    } else if q != VdrvTimeout {
      var m :| 0 <= m < polls && WaitedTo(u, b, needed, m) && PollGives(u, PollAt(b, needed, m), needed, q);
      PollGivesOnce(u, PollAt(b, needed, m), needed, q, r);
    }
  }

  lemma PolledResult(u: Trace, b: nat, needed: bool, polls: nat, r: Result)
    requires Polled(u, b, needed, polls, r)
    ensures r == Ok || r == BusError || r == DriverFault || r == VdrvTimeout
  {
    PolledOnce(u, b, needed, polls, r, r);
  }

  /** No trace holds the causes of two results. */
  lemma CauseOnce(u: Trace, b: nat, p: Profile, limit: u16, r: Result, q: Result)
    requires |p.registers| == REGISTER_COUNT && Cause(u, b, p, limit, r) && Cause(u, b, p, limit, q)
    ensures r == q
  {
    var c, needed, polls := b + 2 + 2 * |Steps(p)|, NeedsVdrv(p), Polls(p, limit);
    hide Steps, NeedsVdrv, Polls, ValidateProfile, PlanFails, Polled, VerifiedTo;
    if PlanFails(u, b + 2, Steps(p), r) {
      PlanFailsOnce(u, b + 2, Steps(p), r, q);
    }
    if PlanFails(u, b + 2, Steps(p), q) {
      PlanFailsOnce(u, b + 2, Steps(p), q, r);
    }
    if Polled(u, c, needed, polls, r) && Polled(u, c, needed, polls, q) {
      PolledOnce(u, c, needed, polls, r, q);
    }
  }

  // ---------------------------------------------------------------- each phase has its cause

  lemma AttemptCause(device: Device, t: Trace, step: RegisterPair)
    ensures var (u, r) := Attempt(device, t, step);
            t <= u && (r == Ok ==> |u| == |t| + 2 && VerifiedAt(u, |t|, step)) &&
            (r != Ok ==> StepFails(u, |t|, step, r))
  {
  }

  lemma {:induction false} PlanCause(device: Device, t: Trace, steps: seq<RegisterPair>)
    ensures var (u, r) := RunPlan(device, t, steps);
            t <= u && (r == Ok ==> |u| == |t| + 2 * |steps| && VerifiedTo(u, |t|, steps, |steps|)) &&
            (r != Ok ==> PlanFails(u, |t|, steps, r))
    decreases |steps|
  {
    hide StepFails, VerifiedAt, Attempt;
    if steps != [] {
      AttemptCause(device, t, steps[0]);
      var (v, first) := Attempt(device, t, steps[0]);
      if first != Ok {
        assert VerifiedTo(v, |t|, steps, 0);
        assert StepFails(v, |t| + 2 * 0, steps[0], first);
      } else {
        PlanCause(device, v, steps[1..]);
        var (u, r) := RunPlan(device, v, steps[1..]);
        if r == Ok {
          VerifiedShift(t, v, u, steps, |steps| - 1);
        } else {
          var k :| 0 <= k < |steps| - 1 && VerifiedTo(u, |v|, steps[1..], k) && StepFails(u, |v| + 2 * k, steps[1..][k], r);
          VerifiedShift(t, v, u, steps, k);
          assert VerifiedTo(u, |t|, steps, k + 1) && StepFails(u, |t| + 2 * (k + 1), steps[k + 1], r);
        }
      }
    }
  }

  lemma VerifiedShift(t: Trace, v: Trace, u: Trace, steps: seq<RegisterPair>, n: nat)
    requires steps != [] && t <= v <= u && |v| == |t| + 2 && VerifiedAt(v, |t|, steps[0])
    requires VerifiedTo(u, |v|, steps[1..], n)
    ensures VerifiedTo(u, |t|, steps, n + 1)
  {
    forall k | 0 <= k < n + 1 ensures VerifiedAt(u, |t| + 2 * k, steps[k]) {
      if k > 0 {
        assert VerifiedAt(u, |v| + 2 * (k - 1), steps[1..][k - 1]);
      }
    }
  }

  lemma {:induction false} SettleCause(device: Device, t: Trace, needed: bool, polls: nat)
    ensures var (u, r) := Settle(device, t, needed, polls); t <= u && Polled(u, |t|, needed, polls, r)
    decreases polls
  {
    hide And;
    if polls > 0 {
      var before := if needed then t + [Issue(device, t, Delay)] else t;
      var status := Issue(device, before, Read(DEV_STAT));
      var v := before + [status];
      var (u, r) := Settle(device, t, needed, polls);
      if Waiting(v, PollAt(|t|, needed, 0), needed) {
        SettleCause(device, v, needed, polls - 1);
        PolledShift(t, v, u, polls - 1, r);
      } else {
        assert u == v && v[PollAt(|t|, needed, 0)] == status;
        assert WaitedTo(v, |t|, needed, 0) && PollGives(v, PollAt(|t|, needed, 0), needed, r);
      }
    }
  }

  lemma WaitedShift(t: Trace, v: Trace, u: Trace, n: nat)
    requires t <= v <= u && |v| == |t| + 2 && Waiting(v, |t| + 1, true) && WaitedTo(u, |v|, true, n)
    ensures WaitedTo(u, |t|, true, n + 1)
  {
    hide And;
    forall k | 0 <= k < n + 1 ensures Waiting(u, PollAt(|t|, true, k), true) {
      if k > 0 {
        assert Waiting(u, PollAt(|v|, true, k - 1), true);
      }
    }
  }

  lemma PolledShift(t: Trace, v: Trace, u: Trace, polls: nat, r: Result)
    requires t <= v <= u && |v| == |t| + 2 && Waiting(v, |t| + 1, true) && Polled(u, |v|, true, polls, r)
    ensures Polled(u, |t|, true, polls + 1, r)
  {
    hide Waiting, PollGives;
    if r == VdrvTimeout {
      WaitedShift(t, v, u, polls);
    } else {
      var n :| 0 <= n < polls && WaitedTo(u, |v|, true, n) && PollGives(u, PollAt(|v|, true, n), true, r);
      WaitedShift(t, v, u, n);
      assert PollAt(|v|, true, n) == PollAt(|t|, true, n + 1);
    }
  }

  // ---------------------------------------------------------------- the whole configuration

  lemma HasCause(device: Device, t: Trace, p: Profile, limit: u16)
    requires |p.registers| == REGISTER_COUNT
    ensures var (u, r) := Configure(device, t, p, limit); t <= u && Cause(u, |t|, p, limit, r)
  {
    hide ValidateProfile, Steps, RunPlan, Settle, NeedsVdrv, ForceSafe, PlanFails, Polled, VerifiedTo;
    var id := Issue(device, t, Read(DEVICE_ID));
    var rev := Issue(device, t + [id], Read(REV_ID));
    var u := t + [id, rev];
    if ValidateProfile(p) == ProfileOk && Identified(u, |t|) {
      PlanCause(device, u, Steps(p));
      var (v, planned) := RunPlan(device, u, Steps(p));
      SettleCause(device, v, NeedsVdrv(p), Polls(p, limit));
      var (s, settled) := Settle(device, v, NeedsVdrv(p), Polls(p, limit));
      var w := Configure(device, t, p, limit).0;
      PhaseCause(u, v, planned, s, settled, p, limit, |t|, w, device);
    }
  }

  lemma PhaseCause(u: Trace, v: Trace, planned: Result, s: Trace, settled: Result, p: Profile, limit: u16, b: nat,
                   w: Trace, device: Device)
    requires |p.registers| == REGISTER_COUNT && ValidateProfile(p) == ProfileOk
    requires Identified(u, b) && |u| == b + 2 && u <= v <= s
    requires planned == Ok ==> |v| == |u| + 2 * |Steps(p)| && VerifiedTo(v, |u|, Steps(p), |Steps(p)|)
    requires planned != Ok ==> PlanFails(v, |u|, Steps(p), planned)
    requires Polled(s, |v|, NeedsVdrv(p), Polls(p, limit), settled)
    requires w == if planned != Ok then ForceSafe(device, v).0 else if settled != Ok then ForceSafe(device, s).0 else s
    ensures u <= w && Cause(w, b, p, limit, if planned != Ok then planned else settled)
  {
    SafeWritesAttempted(device, v);
    SafeWritesAttempted(device, s);
    hide ValidateProfile, Steps, NeedsVdrv, ForceSafe, PlanFails, Polled, VerifiedTo;
    assert Identified(w, b);
    if planned != Ok {
      PlanFailsOnce(v, b + 2, Steps(p), planned, planned);
      PlanFailsStays(v, w, b + 2, Steps(p), planned);
    } else {
      VerifiedStays(v, w, b + 2, Steps(p), |Steps(p)|);
      PolledResult(s, |v|, NeedsVdrv(p), Polls(p, limit), settled);
      PolledStays(s, w, |v|, NeedsVdrv(p), Polls(p, limit), settled);
    }
  }

  /** Each result is returned exactly when its own cause was seen. In particular OK is: both
      identity reads matched, each of the fourteen writes was read back equal, and a status read
      within the limit was without a fault, with the supply ready if it is driven, after reads that
      were all waiting. The closing sequence behind a failure disguises nothing. */
  lemma ConfigureExactly(device: Device, t: Trace, p: Profile, limit: u16, q: Result)
    requires |p.registers| == REGISTER_COUNT
    ensures var (u, r) := Configure(device, t, p, limit); Cause(u, |t|, p, limit, q) <==> q == r
  {
    hide *;
    HasCause(device, t, p, limit);
    var (u, r) := Configure(device, t, p, limit);
    if Cause(u, |t|, p, limit, q) {
      CauseOnce(u, |t|, p, limit, q, r);
    }
  }

  const SAFE_END: seq<RegisterPair> := [
    RegisterPair(TOF_CONFIG, 0x00), RegisterPair(VDRV_CTRL, 0x20), RegisterPair(TOF_CONFIG, 0x40)]

  /** The safe transition reports OK exactly when all three of its writes were read back equal, so
      a standby that was not reached is always reported. */
  lemma ForceSafeExactly(device: Device, t: Trace)
    ensures var (u, r) := ForceSafe(device, t); r == Ok <==> VerifiedTo(u, |t|, SAFE_END, 3)
  {
    hide Attempt, VerifiedAt, StepFails;
    var (a, tof) := Attempt(device, t, SAFE_END[0]);
    var (b, vdrv) := Attempt(device, a, SAFE_END[1]);
    var (c, standby) := Attempt(device, b, SAFE_END[2]);
    AttemptCause(device, t, SAFE_END[0]);
    AttemptCause(device, a, SAFE_END[1]);
    AttemptCause(device, b, SAFE_END[2]);
    AttemptDecided(t, a, c, SAFE_END[0], tof);
    AttemptDecided(a, b, c, SAFE_END[1], vdrv);
    AttemptDecided(b, c, c, SAFE_END[2], standby);
    assert VerifiedTo(c, |t|, SAFE_END, 3) <==>
      VerifiedAt(c, |t| + 2 * 0, SAFE_END[0]) && VerifiedAt(c, |t| + 2 * 1, SAFE_END[1]) && VerifiedAt(c, |t| + 2 * 2, SAFE_END[2]);
  }

  lemma AttemptDecided(t: Trace, u: Trace, w: Trace, step: RegisterPair, r: Result)
    requires t <= u <= w && (r == Ok ==> VerifiedAt(u, |t|, step)) && (r != Ok ==> StepFails(u, |t|, step, r))
    ensures r == Ok <==> VerifiedAt(w, |t|, step)
  {
  }

  // ---------------------------------------------------------------- what is written

  /** The value the steps leave at an address. */
  function LeftAt(steps: seq<RegisterPair>, address: byte): byte {
    if steps == [] then 0
    else if steps[|steps| - 1].address == address then steps[|steps| - 1].value
    else LeftAt(steps[..|steps| - 1], address)
  }

  /** The fourteen writes of an accepted profile: the four values of the safe start; then every register
      but the supply and the state machine, in the profile's order; these two last. VDRV is waited for
      exactly when the values left enable its driver. */
  lemma StepsExactly(p: Profile)
    requires |p.registers| == REGISTER_COUNT && ValidateProfile(p) == ProfileOk
    ensures var rs := p.registers;
            Steps(p) ==
              [RegisterPair(0x1A, 0x01), RegisterPair(0x16, 0x20), RegisterPair(0x1B, 0x00), RegisterPair(0x14, 0x03)] +
              [rs[0], rs[1], rs[2], rs[3], rs[4], rs[6], rs[7], rs[8]] + [rs[5], rs[9]]
    ensures NeedsVdrv(p) <==> And(LeftAt(Steps(p), 0x16), 0x20) == 0 && And(LeftAt(Steps(p), 0x1B), 0x02) != 0
  {
    AcceptedIsSafe(p);
    OrdinaryPrefix(p.registers);
    PlaceAddresses(p.registers);
    hide And, ValidateProfile, ImageInPlace, Ordinary;
    var s := Steps(p);
    assert s[|s| - 1] == RegisterPair(TOF_CONFIG, p.registers[9].value);
    assert s[..|s| - 1][|s| - 2] == RegisterPair(VDRV_CTRL, p.registers[5].value);
  }
}
