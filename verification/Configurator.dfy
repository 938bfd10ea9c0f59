/** Applying a register profile over a bus that may do anything: every write is attempted, read
    back and recorded, and every failure closes in Standby and Hi-Z. */
module Configurator {
  import opened Bytes
  import opened CaptureData
  import opened Profile

  const DEV_CTRL_3: byte := 0x14
  const VDRV_CTRL: byte := 0x16
  const BURST_PULSE: byte := 0x1A
  const TOF_CONFIG: byte := 0x1B
  const DEV_STAT: byte := 0x1C
  const DEVICE_ID: byte := 0x1D
  const REV_ID: byte := 0x1E

  datatype Operation = Write(address: byte, value: byte) | Read(address: byte) | Delay

  /** What happened on the bus: the operation, whether the driver reported success, what it read. */
  datatype Event = Event(operation: Operation, ok: bool, value: byte)

  type Trace = seq<Event>

  /** The answer to an operation, given everything that happened before: any function at all. */
  type Device = (Trace, Operation) -> (bool, byte)

  datatype Result = Ok | InvalidProfile | BusError | WrongIdentity | ReadbackError | DriverFault | VdrvTimeout

  function Issue(device: Device, t: Trace, operation: Operation): Event {
    var (ok, value) := device(t, operation);
    Event(operation, ok, value)
  }

  /** write_verify. */
  function Attempt(device: Device, t: Trace, step: RegisterPair): (Trace, Result) {
    var w := Issue(device, t, Write(step.address, step.value));
    if !w.ok then (t + [w], BusError)
    else
      var r := Issue(device, t + [w], Read(step.address));
      (t + [w, r], if !r.ok then BusError else if r.value != step.value then ReadbackError else Ok)
  }

  /** Verified writes one after another, up to the first that fails. */
  function RunPlan(device: Device, t: Trace, steps: seq<RegisterPair>): (Trace, Result)
    decreases |steps|
  {
    if steps == [] then (t, Ok)
    else
      var (u, r) := Attempt(device, t, steps[0]);
      if r != Ok then (u, r) else RunPlan(device, u, steps[1..])
  }

  const SAFE_START: seq<RegisterPair> := [
    RegisterPair(BURST_PULSE, 0x01), RegisterPair(VDRV_CTRL, 0x20), RegisterPair(TOF_CONFIG, 0x00),
    RegisterPair(DEV_CTRL_3, 0x03)]

  /** Three attempts whatever the first ones return; the first failure is reported. */
  function ForceSafe(device: Device, t: Trace): (Trace, Result) {
    var (a, tof) := Attempt(device, t, RegisterPair(TOF_CONFIG, 0x00));
    var (b, vdrv) := Attempt(device, a, RegisterPair(VDRV_CTRL, 0x20));
    var (c, standby) := Attempt(device, b, RegisterPair(TOF_CONFIG, 0x40));
    (c, if tof != Ok then tof else if vdrv != Ok then vdrv else standby)
  }

  predicate NeedsVdrv(p: Profile)
    requires |p.registers| == REGISTER_COUNT
  {
    And(p.registers[5].value, 0x20) == 0 && And(p.registers[9].value, 0x02) != 0
  }

  predicate Deferred(r: RegisterPair) {
    r.address == VDRV_CTRL || r.address == TOF_CONFIG
  }

  /** The registers written before the driver supply and the state machine. */
  function Ordinary(rs: seq<RegisterPair>): seq<RegisterPair> {
    if rs == [] then []
    else Ordinary(rs[..|rs| - 1]) + (if Deferred(rs[|rs| - 1]) then [] else [rs[|rs| - 1]])
  }

  function Steps(p: Profile): seq<RegisterPair>
    requires |p.registers| == REGISTER_COUNT
  {
    SAFE_START + Ordinary(p.registers) +
    [RegisterPair(VDRV_CTRL, p.registers[5].value), RegisterPair(TOF_CONFIG, p.registers[9].value)]
  }

  /** Wait for VDRV, or look once when the profile does not drive it. */
  function Settle(device: Device, t: Trace, needed: bool, polls: nat): (Trace, Result)
    decreases polls
  {
    if polls == 0 then (t, VdrvTimeout)
    else
      var u := if needed then t + [Issue(device, t, Delay)] else t;
      var s := Issue(device, u, Read(DEV_STAT));
      var v := u + [s];
      if !s.ok then (v, BusError)
      else if And(s.value, 0x07) != 0 then (v, DriverFault)
      else if !needed || And(s.value, 0x08) != 0 then (v, Ok)
      else Settle(device, v, needed, polls - 1)
  }

  function Closed(device: Device, t: Trace, r: Result): (Trace, Result) {
    (ForceSafe(device, t).0, r)
  }

  /** tuss4470_configure_firmware. */
  function Configure(device: Device, t: Trace, p: Profile, pollLimit: u16): (Trace, Result)
    requires |p.registers| == REGISTER_COUNT
  {
    if ValidateProfile(p) != ProfileOk then (t, InvalidProfile)
    else
      var id := Issue(device, t, Read(DEVICE_ID));
      if !id.ok then (t + [id], BusError)
      else
        var rev := Issue(device, t + [id], Read(REV_ID));
        var u := t + [id, rev];
        if !rev.ok then (u, BusError)
        else if id.value != 0xB9 || rev.value != 0x02 then (u, WrongIdentity)
        else
          var (v, planned) := RunPlan(device, u, Steps(p));
          if planned != Ok then Closed(device, v, planned)
          else
            var (s, settled) := Settle(device, v, NeedsVdrv(p), if NeedsVdrv(p) then pollLimit else 1);
            if settled != Ok then Closed(device, s, settled) else (s, Ok)
  }

  // ---------------------------------------------------------------- the shape of a plan's trace

  predicate VerifiedAt(t: Trace, i: nat, r: RegisterPair) {
    i + 1 < |t| &&
    t[i].operation == Write(r.address, r.value) && t[i].ok &&
    t[i + 1].operation == Read(r.address) && t[i + 1].ok && t[i + 1].value == r.value
  }

  /** From position b: steps[..n] verified pair by pair, then at most the failed attempt. */
  predicate PlanShape(t: Trace, b: nat, steps: seq<RegisterPair>, n: nat) {
    n <= |steps| && b + 2 * n <= |t| <= b + 2 * n + 2 &&
    (forall k :: 0 <= k < n ==> VerifiedAt(t, b + 2 * k, steps[k])) &&
    (n == |steps| ==> |t| == b + 2 * n) &&
    (n < |steps| ==>
      |t| > b + 2 * n && t[b + 2 * n].operation == Write(steps[n].address, steps[n].value) &&
      (|t| == b + 2 * n + 2 ==> t[b + 2 * n + 1].operation == Read(steps[n].address)))
  }

  lemma {:induction false} PlanRuns(device: Device, t: Trace, steps: seq<RegisterPair>) returns (n: nat)
    ensures var (u, r) := RunPlan(device, t, steps);
            t <= u && PlanShape(u, |t|, steps, n) && (r == Ok <==> n == |steps|)
    decreases |steps|
  {
    if steps == [] {
      n := 0;
    } else {
      var (u, r) := Attempt(device, t, steps[0]);
      if r != Ok {
        n := 0;
      } else {
        var m := PlanRuns(device, u, steps[1..]);
        n := m + 1;
        PlanExtends(t, u, RunPlan(device, u, steps[1..]).0, steps, m);
      }
    }
  }

  lemma PlanExtends(t: Trace, u: Trace, v: Trace, steps: seq<RegisterPair>, m: nat)
    requires steps != [] && t <= u <= v && |u| == |t| + 2 && VerifiedAt(u, |t|, steps[0])
    requires PlanShape(v, |u|, steps[1..], m)
    ensures PlanShape(v, |t|, steps, m + 1)
  {
    forall k | 0 <= k < m + 1 ensures VerifiedAt(v, |t| + 2 * k, steps[k]) {
      if k > 0 {
        assert VerifiedAt(v, |u| + 2 * (k - 1), steps[1..][k - 1]);
      }
    }
  }

  // ---------------------------------------------------------------- what the steps are

  /** Register k of the profile, as a step of the plan. */
  function StepOf(k: nat): nat
    requires k < REGISTER_COUNT
  {
    if k < 5 then 4 + k else if k == 5 then 12 else if k < 9 then 3 + k else 13
  }

  lemma StepsAre(p: Profile)
    requires ImageInPlace(p.registers)
    ensures var s := Steps(p);
            |s| == 14 && s[..4] == SAFE_START &&
            (forall k :: 0 <= k < REGISTER_COUNT ==> s[StepOf(k)] == p.registers[k]) &&
            forall k :: 4 <= k < 12 ==> !Deferred(s[k])
  {
    var rs := p.registers;
    PlaceAddresses(rs);
    OrdinaryPrefix(rs);
    var o := [rs[0], rs[1], rs[2], rs[3], rs[4], rs[6], rs[7], rs[8]];
    assert Ordinary(rs) == o;
    hide Ordinary;
    assert rs[5] == RegisterPair(VDRV_CTRL, rs[5].value) && rs[9] == RegisterPair(TOF_CONFIG, rs[9].value);
    assert Steps(p) == SAFE_START + o + [rs[5], rs[9]];
  }

  lemma PlaceAddresses(rs: seq<RegisterPair>)
    requires ImageInPlace(rs)
    ensures rs[0].address == 0x10 && rs[1].address == 0x11 && rs[2].address == 0x12 && rs[3].address == 0x13
    ensures rs[4].address == 0x14 && rs[5].address == 0x16 && rs[6].address == 0x17 && rs[7].address == 0x18
    ensures rs[8].address == 0x1A && rs[9].address == 0x1B
  {
    hide And;
  }

  lemma OrdinaryNext(rs: seq<RegisterPair>, n: nat)
    requires n < |rs|
    ensures Ordinary(rs[..n + 1]) == Ordinary(rs[..n]) + (if Deferred(rs[n]) then [] else [rs[n]])
  {
    assert rs[..n + 1][..n] == rs[..n];
  }

  lemma OrdinaryFirst(rs: seq<RegisterPair>)
    requires ImageInPlace(rs)
    ensures Ordinary(rs[..5]) == [rs[0], rs[1], rs[2], rs[3], rs[4]]
  {
    PlaceAddresses(rs);
    assert Ordinary(rs[..0]) == [];
    hide Ordinary, ImageInPlace;
    OrdinaryNext(rs, 0);
    OrdinaryNext(rs, 1);
    OrdinaryNext(rs, 2);
    OrdinaryNext(rs, 3);
    OrdinaryNext(rs, 4);
  }

  lemma OrdinaryPrefix(rs: seq<RegisterPair>)
    requires ImageInPlace(rs)
    ensures Ordinary(rs) == [rs[0], rs[1], rs[2], rs[3], rs[4], rs[6], rs[7], rs[8]]
  {
    hide Ordinary;
    PlaceAddresses(rs);
    hide ImageInPlace;
    OrdinaryFirst(rs);
    OrdinaryNext(rs, 5);
    OrdinaryNext(rs, 6);
    OrdinaryNext(rs, 7);
    OrdinaryNext(rs, 8);
    OrdinaryNext(rs, 9);
    assert rs[..10] == rs;
  }

  // ---------------------------------------------------------------- the other pieces

  predicate NoWrites(t: Trace, b: nat) {
    forall i :: b <= i < |t| ==> !t[i].operation.Write?
  }

  predicate Settled(e: Event, needed: bool) {
    e.operation == Read(DEV_STAT) && e.ok && And(e.value, 0x07) == 0 && (needed ==> And(e.value, 0x08) != 0)
  }

  lemma {:induction false} SettleReads(device: Device, t: Trace, needed: bool, polls: nat)
    ensures var (u, r) := Settle(device, t, needed, polls);
            t <= u && NoWrites(u, |t|) && (r == Ok ==> u != [] && Settled(u[|u| - 1], needed))
    decreases polls
  {
    hide And;
    if polls > 0 {
      var u := if needed then t + [Issue(device, t, Delay)] else t;
      var v := u + [Issue(device, u, Read(DEV_STAT))];
      SettleReads(device, v, needed, polls - 1);
    }
  }

  /** The writes of a trace from position b on. */
  function Writes(t: Trace, b: nat): seq<Operation>
    requires b <= |t|
    decreases |t| - b
  {
    if b == |t| then []
    else (if t[b].operation.Write? then [t[b].operation] else []) + Writes(t, b + 1)
  }

  const SAFE_WRITES: seq<Operation> := [Write(TOF_CONFIG, 0x00), Write(VDRV_CTRL, 0x20), Write(TOF_CONFIG, 0x40)]

  lemma AttemptWrites(device: Device, t: Trace, step: RegisterPair)
    ensures var u := Attempt(device, t, step).0;
            t <= u && |t| < |u| <= |t| + 2 && u[|t|].operation == Write(step.address, step.value) &&
            (|u| == |t| + 2 ==> u[|t| + 1].operation == Read(step.address))
  {
  }

  /** Every one of the three safe writes is attempted, in this order and nothing else. */
  lemma SafeWritesAttempted(device: Device, t: Trace)
    ensures var u := ForceSafe(device, t).0;
            t <= u && |t| < |u| && Writes(u, |t|) == SAFE_WRITES
  {
    var a := Attempt(device, t, RegisterPair(TOF_CONFIG, 0x00)).0;
    var b := Attempt(device, a, RegisterPair(VDRV_CTRL, 0x20)).0;
    var c := Attempt(device, b, RegisterPair(TOF_CONFIG, 0x40)).0;
    AttemptWrites(device, t, RegisterPair(TOF_CONFIG, 0x00));
    AttemptWrites(device, a, RegisterPair(VDRV_CTRL, 0x20));
    AttemptWrites(device, b, RegisterPair(TOF_CONFIG, 0x40));
    hide Attempt;
    assert ForceSafe(device, t).0 == c;
    OneWrite(c, |b|, |c|, Write(TOF_CONFIG, 0x40));
    OneWrite(c, |a|, |b|, Write(VDRV_CTRL, 0x20));
    OneWrite(c, |t|, |a|, Write(TOF_CONFIG, 0x00));
    assert Writes(c, |c|) == [];
  }

  lemma OneWrite(t: Trace, i: nat, j: nat, w: Operation)
    requires w.Write? && i < j <= i + 2 && j <= |t| && t[i].operation == w
    requires j == i + 2 ==> t[i + 1].operation.Read?
    ensures Writes(t, i) == [w] + Writes(t, j)
  {
  }

  lemma PlanWrites(t: Trace, b: nat, steps: seq<RegisterPair>, n: nat, i: nat)
    requires PlanShape(t, b, steps, n) && b <= i < |t| && t[i].operation.Write?
    ensures exists k: nat :: k <= n && k < |steps| && i == b + 2 * k && t[i].operation == Write(steps[k].address, steps[k].value)
  {
    var k: nat := (i - b) / 2;
    if k < n {
      assert VerifiedAt(t, b + 2 * k, steps[k]);
      assert i == b + 2 * k || i == b + 2 * k + 1;
    } else {
      assert k == n;
    }
    assert i == b + 2 * k && t[i].operation == Write(steps[k].address, steps[k].value);
  }

  // ---------------------------------------------------------------- the parts of a whole configuration

  /** Two identity reads, a plan run up to step n, a settling phase without writes up to s. */
  predicate Parts(t: Trace, p: Profile, v: Trace, n: nat, s: Trace)
    requires |p.registers| == REGISTER_COUNT
  {
    |t| + 2 <= |v| && t <= v <= s && !v[|t|].operation.Write? && !v[|t| + 1].operation.Write? &&
    PlanShape(v, |t| + 2, Steps(p), n) && NoWrites(s, |v|) && (n < |Steps(p)| ==> s == v)
  }

  /** Either nothing was written, or the trace is made of those parts and, after a failure, a
      closing sequence. */
  lemma ConfigureParts(device: Device, t: Trace, p: Profile, limit: u16) returns (v: Trace, n: nat, s: Trace)
    requires |p.registers| == REGISTER_COUNT
    ensures var (u, r) := Configure(device, t, p, limit);
            t <= u &&
            ((r != Ok && NoWrites(u, |t|)) ||
             (ValidateProfile(p) == ProfileOk && Parts(t, p, v, n, s) &&
              (r == Ok ==> u == s && n == |Steps(p)| && Settled(u[|u| - 1], NeedsVdrv(p))) &&
              (r != Ok ==> u == ForceSafe(device, s).0)))
  {
    hide ValidateProfile, Steps, RunPlan, ForceSafe, Settle, NeedsVdrv, PlanShape, Settled;
    v, n, s := t, 0, t;
    var id := Issue(device, t, Read(DEVICE_ID));
    var rev := Issue(device, t + [id], Read(REV_ID));
    var u := t + [id, rev];
    if ValidateProfile(p) == ProfileOk && id.ok && rev.ok && id.value == 0xB9 && rev.value == 0x02 {
      var (w, planned) := RunPlan(device, u, Steps(p));
      v := w;
      n := PlanRuns(device, u, Steps(p));
      assert v[..|u|] == u;
      SettleReads(device, v, NeedsVdrv(p), if NeedsVdrv(p) then limit else 1);
      s := if planned != Ok then v else Settle(device, v, NeedsVdrv(p), if NeedsVdrv(p) then limit else 1).0;
      PlanCount(v, |u|, Steps(p), n);
      SafeWritesAttempted(device, s);
    }
  }

  lemma PlanCount(v: Trace, b: nat, steps: seq<RegisterPair>, n: nat)
    requires PlanShape(v, b, steps, n)
    ensures n <= |steps|
  {
  }

  // ---------------------------------------------------------------- the safety properties

  /** A write in the settled part of a trace is the write of one plan step, and every earlier
      step was verified before it. */
  lemma WriteIsStep(t: Trace, p: Profile, v: Trace, n: nat, s: Trace, i: nat) returns (k: nat)
    requires |p.registers| == REGISTER_COUNT && Parts(t, p, v, n, s)
    requires |t| <= i < |s| && s[i].operation.Write?
    ensures k < |Steps(p)| && k <= n && i == |t| + 2 + 2 * k && s[i].operation == Write(Steps(p)[k].address, Steps(p)[k].value)
    ensures forall m :: 0 <= m < k ==> VerifiedAt(s, |t| + 2 + 2 * m, Steps(p)[m])
  {
    hide Steps, ImageInPlace;
    assert i < |v| && v[i] == s[i];
    assert i != |t| && i != |t| + 1;
    PlanWrites(v, |t| + 2, Steps(p), n, i);
    k :| k <= n && k < |Steps(p)| && i == |t| + 2 + 2 * k && v[i].operation == Write(Steps(p)[k].address, Steps(p)[k].value);
    forall m | 0 <= m < k ensures VerifiedAt(s, |t| + 2 + 2 * m, Steps(p)[m]) {
      assert VerifiedAt(v, |t| + 2 + 2 * m, Steps(p)[m]);
    }
  }

  lemma DriverStep(p: Profile, k: nat)
    requires ImageInPlace(p.registers) && k < 14 && |Steps(p)| == 14
    ensures Steps(p)[k].address == VDRV_CTRL && Steps(p)[k].value != 0x20 ==> k == 12
  {
    StepsAre(p);
    hide Steps, ImageInPlace;
    if k < 4 {
      assert Steps(p)[k] == Steps(p)[..4][k] == SAFE_START[k];
    }
    assert StepOf(9) == 13 && StepOf(5) == 12;
    assert k == 13 ==> Steps(p)[13] == p.registers[9];
    PlaceIfImage(p.registers);
  }

  lemma PlaceIfImage(rs: seq<RegisterPair>)
    ensures ImageInPlace(rs) ==> rs[9].address == TOF_CONFIG && rs[5].address == VDRV_CTRL
  {
    if ImageInPlace(rs) {
      PlaceAddresses(rs);
    }
  }

  predicate DrivesVdrv(e: Event) {
    e.operation.Write? && e.operation.address == VDRV_CTRL && e.operation.value != 0x20
  }

  lemma GuardedPart(t: Trace, p: Profile, v: Trace, n: nat, s: Trace, i: nat, register: nat)
    requires |p.registers| == REGISTER_COUNT && ImageInPlace(p.registers)
    requires Parts(t, p, v, n, s) && |t| <= i < |s| && DrivesVdrv(s[i])
    requires register < REGISTER_COUNT && register != 5 && register != 9
    ensures s[i].operation.value == p.registers[5].value
    ensures var j := |t| + 2 + 2 * StepOf(register); j + 1 < i && VerifiedAt(s, j, p.registers[register])
  {
    hide Parts, Steps, ImageInPlace;
    StepsAre(p);
    var k := WriteIsStep(t, p, v, n, s, i);
    DriverStep(p, k);
    assert VerifiedAt(s, |t| + 2 + 2 * StepOf(register), Steps(p)[StepOf(register)]);
    assert StepOf(5) == 12;
  }

  lemma VerifiedStays(s: Trace, u: Trace, j: nat, r: RegisterPair)
    requires s <= u && VerifiedAt(s, j, r)
    ensures VerifiedAt(u, j, r)
  {
  }

  /** Whatever the bus does, VDRV is written with anything but 0x20 only as the profile asks, and
      only after each of the other eight registers was written and read back equal. */
  lemma VdrvGuarded(device: Device, t: Trace, p: Profile, limit: u16, i: nat, register: nat)
    requires |p.registers| == REGISTER_COUNT && register < REGISTER_COUNT && register != 5 && register != 9
    ensures var u := Configure(device, t, p, limit).0;
            |t| <= i < |u| && DrivesVdrv(u[i]) ==>
              u[i].operation.value == p.registers[5].value &&
              exists j: nat :: |t| <= j && j + 1 < i && VerifiedAt(u, j, p.registers[register])
  {
    hide Configure, ForceSafe, Parts, Steps, ValidateProfile, ImageInPlace, VerifiedAt, Writes, StepOf, DrivesVdrv;
    var (u, r) := Configure(device, t, p, limit);
    var v, n, s := ConfigureParts(device, t, p, limit);
    if |t| <= i < |u| && DrivesVdrv(u[i]) {
      DrivingIsWriting(u[i]);
      AcceptedIsSafe(Profile(p.interval, p.burst, p.registers));
      if r != Ok {
        SafeWritesAttempted(device, s);
        OnlySafeWrites(u, |s|, i);
      }
      assert u[i] == s[i];
      GuardedPart(t, p, v, n, s, i, register);
      VerifiedStays(s, u, |t| + 2 + 2 * StepOf(register), p.registers[register]);
    }
  }

  lemma DrivingIsWriting(e: Event)
    ensures DrivesVdrv(e) ==> e.operation.Write?
  {
  }

  lemma {:induction false} WriteListed(t: Trace, b: nat, i: nat)
    requires b <= i < |t| && t[i].operation.Write?
    ensures t[i].operation in Writes(t, b)
    decreases i - b
  {
    if b < i {
      WriteListed(t, b + 1, i);
    }
  }

  lemma OnlySafeWrites(t: Trace, b: nat, i: nat)
    requires b <= |t| && i < |t| && Writes(t, b) == SAFE_WRITES
    requires DrivesVdrv(t[i])
    ensures i < b
  {
    if b <= i {
      WriteListed(t, b, i);
      assert false;
    }
  }

  /** A failure after the first write always ends with TOF 0x00, VDRV 0x20, TOF 0x40 attempted in
      this order; a failure before it has written nothing. */
  lemma FailureCloses(device: Device, t: Trace, p: Profile, limit: u16)
    requires |p.registers| == REGISTER_COUNT
    ensures var (u, r) := Configure(device, t, p, limit);
            t <= u &&
            (r != Ok && !NoWrites(u, |t|) ==>
              exists b: nat :: |t| <= b < |u| && Writes(u, b) == SAFE_WRITES)
  {
    var (u, r) := Configure(device, t, p, limit);
    var v, n, s := ConfigureParts(device, t, p, limit);
    hide Configure, ForceSafe, Parts, Steps, ValidateProfile, Writes;
    if r != Ok && !NoWrites(u, |t|) {
      SafeWritesAttempted(device, s);
      assert t <= s by {
        PartsOrder(t, p, v, n, s);
      }
      assert Writes(u, |s|) == SAFE_WRITES;
    }
  }

  lemma PartsOrder(t: Trace, p: Profile, v: Trace, n: nat, s: Trace)
    requires |p.registers| == REGISTER_COUNT && Parts(t, p, v, n, s)
    ensures t <= s
  {
  }

  /** OK means the device was left as the profile says: each of the ten registers was written and
      read back equal, and nothing was written to its address afterwards; the last thing read was
      a status without a fault, with VDRV ready whenever the profile drives the supply. */
  lemma OkMeansApplied(device: Device, t: Trace, p: Profile, limit: u16, register: nat)
    requires |p.registers| == REGISTER_COUNT && register < REGISTER_COUNT
    ensures var (u, r) := Configure(device, t, p, limit);
            r == Ok ==>
              u != [] && Settled(u[|u| - 1], NeedsVdrv(p)) &&
              exists j: nat :: |t| <= j && VerifiedAt(u, j, p.registers[register]) &&
                forall i :: j < i < |u| && u[i].operation.Write? ==> u[i].operation.address != p.registers[register].address
  {
    var (u, r) := Configure(device, t, p, limit);
    var v, n, s := ConfigureParts(device, t, p, limit);
    hide Configure, ForceSafe, Parts, Steps, ValidateProfile, ImageInPlace, Settled, NeedsVdrv;
    if r == Ok {
      AcceptedIsSafe(Profile(p.interval, p.burst, p.registers));
      StepsAre(p);
      var j := |t| + 2 + 2 * StepOf(register);
      PartsVerified(t, p, v, n, s, StepOf(register));
      forall i | j < i < |u| && u[i].operation.Write?
        ensures u[i].operation.address != p.registers[register].address
      {
        var k := WriteIsStep(t, p, v, n, s, i);
        assert StepOf(register) < k;
        LaterStepsDiffer(p, register, k);
      }
    }
  }

  lemma PartsVerified(t: Trace, p: Profile, v: Trace, n: nat, s: Trace, k: nat)
    requires |p.registers| == REGISTER_COUNT && Parts(t, p, v, n, s) && n == |Steps(p)| && k < n
    ensures VerifiedAt(s, |t| + 2 + 2 * k, Steps(p)[k])
  {
    hide Steps;
    assert VerifiedAt(v, |t| + 2 + 2 * k, Steps(p)[k]);
  }

  lemma LaterStepsDiffer(p: Profile, register: nat, k: nat)
    requires ImageInPlace(p.registers) && register < REGISTER_COUNT && |Steps(p)| == 14 && StepOf(register) < k < 14
    ensures Steps(p)[k].address != p.registers[register].address
  {
    StepsAre(p);
    PlaceAddresses(p.registers);
    hide Steps, ImageInPlace;
    var later := if k < 9 then k - 4 else if k < 12 then k - 3 else if k == 12 then 5 else 9;
    assert StepOf(later) == k;
  }
}
