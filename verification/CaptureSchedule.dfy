/** The scheduler as the firmware keeps it: one record updated in place by every operation. */
module CaptureSchedule {
  import opened Bytes
  import opened Schedule

  class CaptureSchedule {
    var active: bool
    var due: bool
    var id: Id16
    var period: u32
    var untilDue: u32
    var limit: u32
    var completed: u32
    var missed: u32
    var leaseSequence: u32
    var lastTimeout: u16
    var leaseRemaining: u32

    function State(): Timer
      reads this
    {
      Timer(active, due, id, period, untilDue, limit, completed, missed, leaseSequence, lastTimeout, leaseRemaining)
    }

    method Init()
      modifies this
      ensures State() == IDLE
    {
      active, due, id := false, false, NO_ID;
      period, untilDue, limit, completed, missed := 0, 0, 0, 0, 0;
      leaseSequence, lastTimeout, leaseRemaining := 0, 0, 0;
    }

    method Begin(scheduleId: Id16, periodUs: u32, count: u32, timeoutMs: u16) returns (result: Result)
      modifies this
      ensures (State(), result) == Start(old(State()), scheduleId, periodUs, count, timeoutMs)
    {
      if active {
        return Conflict;
      }
      var nonzero := IdIsNonzero(scheduleId);
      if !nonzero || periodUs < MIN_PERIOD_US || timeoutMs < MIN_LEASE_MS || timeoutMs > MAX_LEASE_MS {
        return Invalid;
      }
      Init();
      id := scheduleId;
      active := true;
      period := periodUs;
      untilDue := periodUs;
      limit := count;
      lastTimeout := timeoutMs;
      leaseRemaining := timeoutMs * 1000;
      return Ok;
    }

    method Extend(scheduleId: Id16, sequence: u32, timeoutMs: u16) returns (result: Result)
      modifies this
      ensures (State(), result) == Renew(old(State()), scheduleId, sequence, timeoutMs)
    {
      var same := IdsEqual(id, scheduleId);
      if !active || !same {
        return Conflict;
      }
      if sequence == 0 || timeoutMs < MIN_LEASE_MS || timeoutMs > MAX_LEASE_MS {
        return Invalid;
      }
      if sequence == leaseSequence {
        return if timeoutMs == lastTimeout then Ok else Invalid;
      }
      if sequence < leaseSequence {
        return Invalid;
      }
      leaseSequence := sequence;
      lastTimeout := timeoutMs;
      leaseRemaining := timeoutMs * 1000;
      return Ok;
    }

    method AdvanceTime(elapsed: u32) returns (result: Result)
      requires Valid(State())
      modifies this
      ensures (State(), result) == Advance(old(State()), elapsed) && Valid(State())
    {
      hide Div, Mod, Wrap;
      if !active {
        return Invalid;
      }
      if elapsed >= leaseRemaining {
        Init();
        return Expired;
      }
      leaseRemaining := leaseRemaining - elapsed;
      if elapsed < untilDue {
        untilDue := untilDue - elapsed;
        return Ok;
      }
      var over := elapsed - untilDue;
      var periods := 1 + Div(over, period);
      untilDue := period - Mod(over, period);
      if due {
        missed := Wrap(missed + periods);
      } else {
        due := true;
        missed := Wrap(missed + (periods - 1));
      }
      return Ok;
    }

    method ClaimDue() returns (claimed: bool)
      modifies this
      ensures (State(), claimed) == Claim(old(State()))
    {
      if !active || !due {
        return false;
      }
      due := false;
      completed := Wrap(completed + 1);
      if limit != 0 && completed >= limit {
        active := false;
        leaseSequence := 0;
        lastTimeout := 0;
        leaseRemaining := 0;
      }
      return true;
    }

    method Cancel(scheduleId: Id16) returns (result: Result)
      modifies this
      ensures (State(), result) == Stop(old(State()), scheduleId)
    {
      var same := IdsEqual(id, scheduleId);
      if active && !same {
        return Conflict;
      }
      Init();
      return Ok;
    }
  }

  /** Accumulates the differences of all sixteen bytes before it answers. */
  method IdsEqual(left: Id16, right: Id16) returns (equal: bool)
    ensures equal <==> left == right
  {
    var difference := false;
    var index := 0;
    while index < 16
      invariant index <= 16 && (difference <==> left[..index] != right[..index])
    {
      assert left[..index + 1] == left[..index] + [left[index]];
      assert right[..index + 1] == right[..index] + [right[index]];
      difference := difference || left[index] != right[index];
      index := index + 1;
    }
    assert left[..16] == left && right[..16] == right;
    return !difference;
  }

  method IdIsNonzero(value: Id16) returns (nonzero: bool)
    ensures nonzero <==> value != NO_ID
  {
    nonzero := false;
    var index := 0;
    while index < 16
      invariant index <= 16 && (nonzero <==> exists i :: 0 <= i < index && value[i] != 0)
    {
      nonzero := nonzero || value[index] != 0;
      index := index + 1;
    }
    if !nonzero {
      assert value == NO_ID;
    }
  }
}
