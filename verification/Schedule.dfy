/** The firmware's periodic scheduler: countdowns to the next capture and to the end of the
    lease, advanced by whatever time the main loop has counted. */
module Schedule {
  import opened Bytes
  import opened Delivery

  const MIN_PERIOD_US := 100_000
  const MIN_LEASE_MS := 1_000
  const MAX_LEASE_MS := 10_000
  const WORD := 0x1_0000_0000

  const NO_ID: Id16 := [0, 0, 0, 0, 0, 0, 0, 0, 0, 0, 0, 0, 0, 0, 0, 0]

  datatype Result = Ok | Invalid | Conflict | Expired

  datatype Timer = Timer(
    active: bool, due: bool, id: Id16,
    period: u32, untilDue: u32,
    limit: u32, completed: u32, missed: u32,
    leaseSequence: u32, lastTimeout: u16, leaseRemaining: u32)

  const IDLE := Timer(false, false, NO_ID, 0, 0, 0, 0, 0, 0, 0, 0)

  function Wrap(n: nat): u32 {
    n % WORD
  }

  /** Division and remainder of the firmware's unsigned words. */
  function Div(a: nat, p: nat): (q: nat)
    requires p > 0
  {
    a / p
  }

  function Mod(a: nat, p: nat): (r: nat)
    requires p > 0
    ensures r < p
  {
    a % p
  }

  predicate LeaseInRange(timeout: u16) {
    MIN_LEASE_MS <= timeout <= MAX_LEASE_MS
  }

  /** What every operation keeps. */
  predicate Valid(s: Timer) {
    s.active ==>
      s.period >= MIN_PERIOD_US && 0 < s.untilDue <= s.period && s.id != NO_ID &&
      LeaseInRange(s.lastTimeout) && 0 < s.leaseRemaining <= 1000 * s.lastTimeout &&
      (s.limit != 0 ==> s.completed < s.limit)
  }

  function Start(s: Timer, id: Id16, period: u32, count: u32, timeout: u16): (Timer, Result) {
    if s.active then (s, Conflict)
    else if id == NO_ID || period < MIN_PERIOD_US || !LeaseInRange(timeout) then (s, Invalid)
    else
      (IDLE.(active := true, id := id, period := period, untilDue := period, limit := count,
             lastTimeout := timeout, leaseRemaining := 1000 * timeout),
       Ok)
  }

  function Renew(s: Timer, id: Id16, sequence: u32, timeout: u16): (Timer, Result) {
    if !s.active || s.id != id then (s, Conflict)
    else if sequence == 0 || !LeaseInRange(timeout) then (s, Invalid)
    else if sequence == s.leaseSequence then (s, if timeout == s.lastTimeout then Ok else Invalid)
    else if sequence < s.leaseSequence then (s, Invalid)
    else (s.(leaseSequence := sequence, lastTimeout := timeout, leaseRemaining := 1000 * timeout), Ok)
  }

  function Advance(s: Timer, elapsed: u32): (r: (Timer, Result))
    requires Valid(s)
  {
    if !s.active then (s, Invalid)
    else if elapsed >= s.leaseRemaining then (IDLE, Expired)
    else
      var t := s.(leaseRemaining := s.leaseRemaining - elapsed);
      if elapsed < s.untilDue then (t.(untilDue := s.untilDue - elapsed), Ok)
      else
        var over := elapsed - s.untilDue;
        var periods := 1 + Div(over, s.period);
        (t.(untilDue := s.period - Mod(over, s.period), due := true,
            missed := Wrap(s.missed + (if s.due then periods else periods - 1))),
         Ok)
  }

  function Claim(s: Timer): (Timer, bool) {
    if !s.active || !s.due then (s, false)
    else
      var completed := Wrap(s.completed + 1);
      var t := s.(due := false, completed := completed);
      if s.limit != 0 && completed >= s.limit then
        (t.(active := false, leaseSequence := 0, lastTimeout := 0, leaseRemaining := 0), true)
      else (t, true)
  }

  function Stop(s: Timer, id: Id16): (Timer, Result) {
    if s.active && s.id != id then (s, Conflict) else (IDLE, Ok)
  }

  function LeaseRemainingMs(s: Timer): nat {
    if s.active then s.leaseRemaining / 1000 else 0
  }

  lemma OperationsKeepValid(s: Timer, id: Id16, period: u32, count: u32, sequence: u32, timeout: u16, elapsed: u32)
    requires Valid(s)
    ensures Valid(Start(s, id, period, count, timeout).0) && Valid(Renew(s, id, sequence, timeout).0)
    ensures Valid(Advance(s, elapsed).0) && Valid(Claim(s).0) && Valid(Stop(s, id).0)
  {
  }

  // ---------------------------------------------------------------- arithmetic

  lemma Quotient(n: nat, q: nat, r: nat, p: nat)
    requires p > 0 && n == q * p + r && r < p
    ensures Div(n, p) == q && Mod(n, p) == r
  {
    var k := n / p - q;
    assert n == n / p * p + n % p;
    assert k * p == n / p * p - q * p;
    Multiples(k, p);
  }

  lemma Multiples(k: int, p: nat)
    ensures k >= 1 ==> k * p >= p
    ensures k <= -1 ==> k * p + p <= 0
  {
    if k >= 1 {
      assert k * p == (k - 1) * p + p && (k - 1) * p >= 0;
    } else if k <= -1 {
      assert -k * p == (-k - 1) * p + p && (-k - 1) * p >= 0;
      assert k * p == -(-k * p);
    }
  }

  lemma Division(n: nat, p: nat)
    requires p > 0
    ensures n == Div(n, p) * p + Mod(n, p)
  {
  }

  lemma Splits(a: nat, b: nat, p: nat)
    requires p > 0
    ensures Div(a + b, p) == Div(a, p) + Div(Mod(a, p) + b, p) && Mod(a + b, p) == Mod(Mod(a, p) + b, p)
  {
    var c := Mod(a, p) + b;
    Division(a, p);
    Division(c, p);
    hide Div, Mod;
    assert (Div(a, p) + Div(c, p)) * p == Div(a, p) * p + Div(c, p) * p;
    Quotient(a + b, Div(a, p) + Div(c, p), Mod(c, p), p);
  }

  lemma WrapAbsorbs(a: nat, b: nat)
    ensures Wrap(a + Wrap(b)) == Wrap(a + b)
  {
  }

  // ---------------------------------------------------------------- batching

  /** How far into its period the timer is. */
  function Phase(s: Timer): nat
    requires Valid(s) && s.active
  {
    s.period - s.untilDue
  }

  function Owed(s: Timer): nat {
    s.missed + if s.due then 1 else 0
  }

  /** One advance within the lease: the phase turns over, and each turn makes a capture due
      or counts as missed. */
  lemma AdvancePhase(s: Timer, x: u32)
    requires Valid(s) && s.active && x < s.leaseRemaining
    ensures var t := Advance(s, x).0; var n := Div(Phase(s) + x, s.period);
            t == s.(leaseRemaining := s.leaseRemaining - x, due := s.due || n > 0,
                    missed := Wrap(s.missed + (if s.due || n == 0 then n else n - 1)),
                    untilDue := s.period - Mod(Phase(s) + x, s.period))
  {
    hide Div, Mod;
    if x < s.untilDue {
      Quotient(Phase(s) + x, 0, Phase(s) + x, s.period);
    } else {
      var over := x - s.untilDue;
      assert Phase(s) + x == s.period + over;
      Splits(s.period, over, s.period);
      Quotient(s.period, 1, 0, s.period);
    }
  }

  lemma BatchesWithinLease(s: Timer, x: u32, y: u32)
    requires Valid(s) && s.active && x + y < s.leaseRemaining
    ensures Advance(s, x).1.Ok? && Advance(s, x + y) == Advance(Advance(s, x).0, y)
  {
    hide Div, Mod, Wrap;
    var p, q := s.period, Phase(s);
    var t := Advance(s, x).0;
    AdvancePhase(s, x);
    assert Valid(t) && Advance(s, x).1.Ok? && Advance(t, y).1.Ok? && Advance(s, x + y).1.Ok?;
    AdvancePhase(t, y);
    AdvancePhase(s, x + y);
    Splits(q + x, y, p);
    assert q + (x + y) == (q + x) + y;
    MissedAdds(s.missed, s.due, Div(q + x, p), Div(Mod(q + x, p) + y, p));
    hide Advance;
    assert Phase(t) == Mod(q + x, p);
  }

  /** Counting time in two steps or in one leaves the same timer and the same verdict. */
  lemma AdvanceBatches(s: Timer, x: u32, y: u32)
    requires Valid(s) && s.active && x + y < WORD
    ensures Advance(s, x + y) ==
              if Advance(s, x).1.Expired? then Advance(s, x) else Advance(Advance(s, x).0, y)
  {
    hide Div, Mod, Wrap;
    if x + y < s.leaseRemaining {
      BatchesWithinLease(s, x, y);
    }
  }

  lemma MissedAdds(missed: u32, due: bool, n: nat, m: nat)
    ensures var once := Wrap(missed + (if due || n == 0 then n else n - 1));
            Wrap(once + (if due || n > 0 || m == 0 then m else m - 1)) ==
            Wrap(missed + (if due || n + m == 0 then n + m else n + m - 1))
  {
    var a := missed + (if due || n == 0 then n else n - 1);
    WrapAbsorbs(if due || n > 0 || m == 0 then m else m - 1, a);
  }

  // ---------------------------------------------------------------- whole runs of one schedule

  datatype Operation = Tick(elapsed: u32) | ClaimDue | Renewal(id: Id16, sequence: u32, timeout: u16)

  /** A timer with its history since START: time counted in all, time counted since the lease
      was last extended, and the lease then granted. */
  datatype Traced = Traced(timer: Timer, total: nat, since: nat, granted: nat)

  predicate Fresh(s: Timer, op: Operation) {
    op.Renewal? && Renew(s, op.id, op.sequence, op.timeout).1.Ok? && op.sequence > s.leaseSequence
  }

  function Do(s: Timer, op: Operation): Timer
    requires Valid(s)
  {
    match op
    case Tick(elapsed) => Advance(s, elapsed).0
    case ClaimDue => Claim(s).0
    case Renewal(id, sequence, timeout) => Renew(s, id, sequence, timeout).0
  }

  function Trace(h: Traced, op: Operation): Traced
    requires Valid(h.timer)
  {
    var t := Do(h.timer, op);
    match op
    case Tick(elapsed) => Traced(t, h.total + elapsed, h.since + elapsed, h.granted)
    case ClaimDue => h.(timer := t)
    case Renewal(_, _, timeout) =>
      if Fresh(h.timer, op) then Traced(t, h.total, 0, timeout) else h.(timer := t)
  }

  /** Phase, counters and lease in closed form. */
  ghost predicate Consistent(h: Traced, period: u32, limit: u32) {
    Valid(h.timer) &&
    (h.timer.active ==>
      h.timer.period == period && h.timer.limit == limit &&
      h.timer.untilDue == period - Mod(h.total, period) &&
      Wrap(h.timer.completed + Owed(h.timer)) == Wrap(Div(h.total, period)) &&
      h.timer.leaseRemaining + h.since == 1000 * h.granted && h.granted == h.timer.lastTimeout) &&
    (limit != 0 ==> h.timer.completed <= limit)
  }

  lemma CountGrows(completed: u32, missed: u32, due: bool, total: nat, elapsed: nat, period: nat)
    requires period > 0
    requires Wrap(completed + (missed + if due then 1 else 0)) == Wrap(Div(total, period))
    ensures var n := Div(Mod(total, period) + elapsed, period);
            var once := Wrap(missed + (if due || n == 0 then n else n - 1));
            Wrap(completed + (once + if due || n > 0 then 1 else 0)) == Wrap(Div(total + elapsed, period))
  {
    hide Div, Mod, Wrap;
    Splits(total, elapsed, period);
    var n := Div(Mod(total, period) + elapsed, period);
    OwedGrows(completed, missed, due, n);
    WrapAbsorbs(n, Div(total, period));
    WrapAbsorbs(n, completed + (missed + if due then 1 else 0));
  }

  lemma TickConsistent(h: Traced, elapsed: u32, period: u32, limit: u32)
    requires Consistent(h, period, limit) && h.timer.active && elapsed < h.timer.leaseRemaining
    ensures Consistent(Trace(h, Tick(elapsed)), period, limit)
  {
    hide Div, Mod, Wrap;
    var s := h.timer;
    AdvancePhase(s, elapsed);
    assert Phase(s) == Mod(h.total, period);
    Splits(h.total, elapsed, period);
    CountGrows(s.completed, s.missed, s.due, h.total, elapsed, period);
    assert Valid(Advance(s, elapsed).0);
    hide Advance;
  }

  lemma OwedGrows(completed: u32, missed: u32, due: bool, n: nat)
    ensures var once := Wrap(missed + (if due || n == 0 then n else n - 1));
            Wrap(completed + (once + if due || n > 0 then 1 else 0)) ==
            Wrap(n + (completed + (missed + if due then 1 else 0)))
  {
    var a := missed + (if due || n == 0 then n else n - 1);
    WrapAbsorbs(completed + (if due || n > 0 then 1 else 0), a);
  }

  lemma ClaimConsistent(h: Traced, period: u32, limit: u32)
    requires Consistent(h, period, limit)
    ensures Consistent(Trace(h, ClaimDue), period, limit)
  {
    WrapAbsorbs(h.timer.missed, h.timer.completed + 1);
    hide Div, Mod;
    if h.timer.active && h.timer.due && limit != 0 {
      assert Wrap(h.timer.completed + 1) == h.timer.completed + 1;
    }
    hide Wrap;
  }

  lemma TraceConsistent(h: Traced, op: Operation, period: u32, limit: u32)
    requires Consistent(h, period, limit)
    ensures Consistent(Trace(h, op), period, limit)
  {
    hide Div, Mod, Wrap;
    match op
    case Tick(elapsed) =>
      if h.timer.active && elapsed < h.timer.leaseRemaining {
        TickConsistent(h, elapsed, period, limit);
      }
    case ClaimDue => ClaimConsistent(h, period, limit);
    case Renewal(_, _, _) =>
  }

  function TraceAll(h: Traced, ops: seq<Operation>): (r: Option<Traced>)
    ensures r.Some? ==> Valid(r.value.timer)
    decreases |ops|
  {
    if !Valid(h.timer) then None
    else if ops == [] then Some(h)
    else TraceAll(Trace(h, ops[0]), ops[1..])
  }

  lemma {:induction false} RunConsistent(h: Traced, ops: seq<Operation>, period: u32, limit: u32)
    requires Consistent(h, period, limit)
    ensures TraceAll(h, ops).Some? && Consistent(TraceAll(h, ops).value, period, limit)
    decreases |ops|
  {
    if ops != [] {
      TraceConsistent(h, ops[0], period, limit);
      hide Consistent, Trace;
      assert Valid(h.timer) by { ConsistentIsValid(h, period, limit); }
      RunConsistent(Trace(h, ops[0]), ops[1..], period, limit);
    }
  }

  lemma ConsistentIsValid(h: Traced, period: u32, limit: u32)
    requires Consistent(h, period, limit)
    ensures Valid(h.timer)
  {
  }

  /** From an accepted START, whatever mixture of counted time, claims and renewals follows:
      while the schedule is active the countdown is the period less the counted time modulo it,
      completed + due + missed captures are the counted periods modulo 2^32, and the lease left
      is the lease granted less the time counted since; a nonzero limit is never exceeded. */
  lemma ClosedForm(s: Timer, id: Id16, period: u32, count: u32, timeout: u16, ops: seq<Operation>)
    requires Start(s, id, period, count, timeout).1.Ok?
    ensures var h := Traced(Start(s, id, period, count, timeout).0, 0, 0, timeout);
            TraceAll(h, ops).Some? && Consistent(TraceAll(h, ops).value, period, count)
  {
    var h := Traced(Start(s, id, period, count, timeout).0, 0, 0, timeout);
    RunConsistent(h, ops, period, count);
  }
}
