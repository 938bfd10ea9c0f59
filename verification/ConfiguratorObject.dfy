/** The configurator's calls on an injected bus, in the order and with the loops the firmware has. */
module ConfiguratorObject {
  import opened Bytes
  import opened CaptureData
  import opened Profile
  import opened Configurator

  /** Read, write and delay callbacks; trace is everything they were asked and answered. */
  class TussBus {
    const device: Device
    var trace: Trace

    constructor (device: Device)
      ensures this.device == device && trace == []
    {
      this.device, trace := device, [];
    }

    method Perform(operation: Operation) returns (ok: bool, value: byte)
      modifies this
      ensures trace == old(trace) + [Issue(device, old(trace), operation)]
      ensures ok == trace[|trace| - 1].ok && value == trace[|trace| - 1].value
    {
      var answer := device(trace, operation);
      ok, value := answer.0, answer.1;
      trace := trace + [Event(operation, ok, value)];
    }
  }

  method WriteVerify(bus: TussBus, address: byte, value: byte) returns (result: Result)
    modifies bus
    ensures (bus.trace, result) == Attempt(bus.device, old(bus.trace), RegisterPair(address, value))
  {
    var ok, _ := bus.Perform(Write(address, value));
    if !ok {
      return BusError;
    }
    ghost var w := bus.trace[|bus.trace| - 1];
    var readOk, readback := bus.Perform(Read(address));
    assert bus.trace == old(bus.trace) + [w, bus.trace[|bus.trace| - 1]];
    if !readOk {
      return BusError;
    }
    return if readback != value then ReadbackError else Ok;
  }

  method ApplySafeStart(bus: TussBus) returns (result: Result)
    modifies bus
    ensures (bus.trace, result) == RunPlan(bus.device, old(bus.trace), SAFE_START)
  {
    hide Attempt;
    var index := 0;
    while index < |SAFE_START|
      invariant index <= |SAFE_START|
      invariant RunPlan(bus.device, old(bus.trace), SAFE_START) == RunPlan(bus.device, bus.trace, SAFE_START[index..])
    {
      var rest := SAFE_START[index..];
      assert rest[0] == SAFE_START[index] && rest[1..] == SAFE_START[index + 1..];
      result := WriteVerify(bus, SAFE_START[index].address, SAFE_START[index].value);
      if result != Ok {
        return;
      }
      index := index + 1;
    }
    return Ok;
  }

  method EnterSafe(bus: TussBus) returns (result: Result)
    modifies bus
    ensures (bus.trace, result) == ForceSafe(bus.device, old(bus.trace))
  {
    hide Attempt;
    var tof := WriteVerify(bus, TOF_CONFIG, 0x00);
    var vdrv := WriteVerify(bus, VDRV_CTRL, 0x20);
    var standby := WriteVerify(bus, TOF_CONFIG, 0x40);
    if tof != Ok {
      return tof;
    }
    if vdrv != Ok {
      return vdrv;
    }
    return standby;
  }

  method ApplyOrdinary(bus: TussBus, registers: seq<RegisterPair>) returns (result: Result)
    modifies bus
    ensures (bus.trace, result) == RunPlan(bus.device, old(bus.trace), Ordinary(registers))
  {
    hide Attempt;
    var plan := Ordinary(registers);
    ghost var done: nat := 0;
    assert registers[..0] == [] && plan[0..] == plan;
    for index := 0 to |registers|
      invariant done == |Ordinary(registers[..index])| <= |plan|
      invariant RunPlan(bus.device, old(bus.trace), plan) == RunPlan(bus.device, bus.trace, plan[done..])
    {
      OrdinaryNext(registers, index);
      if Deferred(registers[index]) {
        continue;
      }
      OrdinaryAt(registers, index);
      assert plan[done..][0] == registers[index] && plan[done..][1..] == plan[done + 1..];
      result := WriteVerify(bus, registers[index].address, registers[index].value);
      if result != Ok {
        return;
      }
      done := done + 1;
    }
    assert registers[..|registers|] == registers;
    return Ok;
  }

  /** A register that is not deferred comes in the plan after those before it. */
  lemma {:induction false} OrdinaryAt(rs: seq<RegisterPair>, i: nat)
    requires i < |rs|
    ensures Ordinary(rs[..i]) <= Ordinary(rs)
    ensures !Deferred(rs[i]) ==> |Ordinary(rs[..i])| < |Ordinary(rs)| && Ordinary(rs)[|Ordinary(rs[..i])|] == rs[i]
    decreases |rs|
  {
    var front := rs[..|rs| - 1];
    if i < |rs| - 1 {
      assert front[..i] == rs[..i] && front[i] == rs[i];
      OrdinaryAt(front, i);
    }
  }

  method FailSafe(bus: TussBus, result: Result) returns (r: Result)
    modifies bus
    ensures (bus.trace, r) == Closed(bus.device, old(bus.trace), result)
  {
    var _ := EnterSafe(bus);
    return result;
  }

  method WaitReady(bus: TussBus, needed: bool, polls: nat) returns (result: Result)
    modifies bus
    ensures (bus.trace, result) == Settle(bus.device, old(bus.trace), needed, polls)
  {
    hide And;
    for poll := 0 to polls
      invariant Settle(bus.device, old(bus.trace), needed, polls) == Settle(bus.device, bus.trace, needed, polls - poll)
    {
      if needed {
        var _, _ := bus.Perform(Delay);
      }
      var ok, status := bus.Perform(Read(DEV_STAT));
      if !ok {
        return BusError;
      }
      if And(status, 0x07) != 0 {
        return DriverFault;
      }
      if !needed || And(status, 0x08) != 0 {
        return Ok;
      }
    }
    return VdrvTimeout;
  }

  lemma {:induction false} PlanConcat(device: Device, t: Trace, a: seq<RegisterPair>, b: seq<RegisterPair>)
    ensures RunPlan(device, t, a + b) ==
              if RunPlan(device, t, a).1 == Ok then RunPlan(device, RunPlan(device, t, a).0, b) else RunPlan(device, t, a)
    decreases |a|
  {
    hide Attempt;
    if a == [] {
      assert a + b == b;
    } else {
      assert (a + b)[0] == a[0] && (a + b)[1..] == a[1..] + b;
      PlanConcat(device, Attempt(device, t, a[0]).0, a[1..], b);
    }
  }

  /** The last two steps: the supply, then the state machine. */
  lemma PlanTwo(device: Device, t: Trace, a: RegisterPair, b: RegisterPair)
    ensures RunPlan(device, t, [a, b]) ==
              if Attempt(device, t, a).1 == Ok then Attempt(device, Attempt(device, t, a).0, b) else Attempt(device, t, a)
  {
    hide Attempt;
    assert [a, b][1..] == [b] && [b][1..] == [];
    var u := Attempt(device, t, a).0;
    assert RunPlan(device, u, [b]) == Attempt(device, u, b);
  }

  method ConfigureFirmware(bus: TussBus, p: Profile, pollLimit: u16) returns (result: Result)
    requires |p.registers| == REGISTER_COUNT
    modifies bus
    ensures (bus.trace, result) == Configure(bus.device, old(bus.trace), p, pollLimit)
  {
    hide RunPlan, Attempt, Settle, ForceSafe, ValidateProfile, Ordinary, And;
    var valid := Validate(p);
    if valid != ProfileOk {
      return InvalidProfile;
    }
    var targetVdrv, targetTof := p.registers[5].value, p.registers[9].value;
    var needed := And(targetVdrv, 0x20) == 0 && And(targetTof, 0x02) != 0;
    var ok, deviceId := bus.Perform(Read(DEVICE_ID));
    if !ok {
      return BusError;
    }
    ghost var first := bus.trace[|bus.trace| - 1];
    var ok2, revisionId := bus.Perform(Read(REV_ID));
    ghost var u := bus.trace;
    assert u == old(bus.trace) + [first, u[|u| - 1]];
    if !ok2 {
      return BusError;
    }
    if deviceId != 0xB9 || revisionId != 0x02 {
      return WrongIdentity;
    }
    PlanConcat(bus.device, u, SAFE_START + Ordinary(p.registers),
               [RegisterPair(VDRV_CTRL, targetVdrv), RegisterPair(TOF_CONFIG, targetTof)]);
    PlanConcat(bus.device, u, SAFE_START, Ordinary(p.registers));
    result := ApplySafeStart(bus);
    if result != Ok {
      result := FailSafe(bus, result);
      return;
    }
    result := ApplyOrdinary(bus, p.registers);
    if result != Ok {
      result := FailSafe(bus, result);
      return;
    }
    PlanTwo(bus.device, bus.trace, RegisterPair(VDRV_CTRL, targetVdrv), RegisterPair(TOF_CONFIG, targetTof));
    result := WriteVerify(bus, VDRV_CTRL, targetVdrv);
    if result != Ok {
      result := FailSafe(bus, result);
      return;
    }
    result := WriteVerify(bus, TOF_CONFIG, targetTof);
    if result != Ok {
      result := FailSafe(bus, result);
      return;
    }
    result := WaitReady(bus, needed, if needed then pollLimit else 1);
    if result != Ok {
      result := FailSafe(bus, result);
    }
  }
}
