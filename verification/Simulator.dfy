/** The host-side simulator of the scheduler, which works with absolute times and looks at the
    clock only when it is called, and its bisimulation with the firmware's countdowns. */
module Simulator {
  import opened Bytes
  import opened Delivery
  import opened Schedule

  datatype Plan = Plan(
    id: Id16, period: nat, limit: nat, deadline: int, next: int, completed: nat, leaseSequence: nat)

  /** missed counts over the simulator's whole life. */
  datatype Sim = Sim(plan: Option<Plan>, missed: nat)

  predicate Late(sim: Sim, now: int) {
    sim.plan.Some? && now >= sim.plan.value.deadline
  }

  function Expire(sim: Sim): Sim {
    sim.(plan := None)
  }

  /** None is the raised ValueError; the decoder has already checked the request's fields. */
  function StartPeriodic(sim: Sim, now: int, id: Id16, period: u32, count: u32, timeout: u32): Option<Sim> {
    if id == NO_ID || period == 0 || !(MIN_LEASE_MS <= timeout <= MAX_LEASE_MS) then None
    else if sim.plan.Some? then None
    else if period < MIN_PERIOD_US then None
    else Some(sim.(plan := Some(Plan(id, period, count, now + timeout * 1000, now + period, 0, 0))))
  }

  datatype Answer = Refused | Lease(sequence: nat, remainingMs: nat)

  function RenewPeriodic(sim: Sim, now: int, id: Id16, sequence: u32, timeout: u32): (Sim, Answer) {
    if id == NO_ID || sequence == 0 || timeout > MAX_LEASE_MS then (sim, Refused)
    else if sim.plan.None? || sim.plan.value.id != id then (sim, Refused)
    else if now >= sim.plan.value.deadline then (Expire(sim), Refused)
    else
      var p := sim.plan.value;
      var q := if sequence > p.leaseSequence then p.(leaseSequence := sequence, deadline := now + timeout * 1000) else p;
      (sim.(plan := Some(q)), Lease(q.leaseSequence, RemainingMs(q, now)))
  }

  function RemainingMs(p: Plan, now: int): nat {
    if p.deadline > now then (p.deadline - now) / 1000 else 0
  }

  function StopPeriodic(sim: Sim, id: Id16): Option<Sim> {
    if sim.plan.Some? && sim.plan.value.id != id then None else Some(sim.(plan := None))
  }

  /** One pass of the simulated main loop: the new state, and whether a capture was made. */
  function Poll(sim: Sim, now: int): (Sim, bool)
    requires sim.plan.Some? ==> sim.plan.value.period > 0
  {
    if sim.plan.None? then (sim, false)
    else
      var p := sim.plan.value;
      if now >= p.deadline then (Expire(sim), false)
      else if now < p.next then (sim, false)
      else
        var overdue := Div(now - p.next, p.period);
        var q := p.(next := p.next + (overdue + 1) * p.period, completed := p.completed + 1);
        (Sim(if p.limit != 0 && q.completed >= p.limit then None else Some(q), sim.missed + overdue), true)
  }

  class DeviceSimulator {
    var plan: Option<Plan>
    var missedCount: nat

    function State(): Sim
      reads this
    {
      Sim(plan, missedCount)
    }

    constructor ()
      ensures State() == Sim(None, 0)
    {
      plan, missedCount := None, 0;
    }

    method HandleRenewal(now: int, id: Id16, sequence: u32, timeout: u32) returns (answer: Answer)
      modifies this
      ensures (State(), answer) == RenewPeriodic(old(State()), now, id, sequence, timeout)
    {
      if id == NO_ID || sequence == 0 || timeout > MAX_LEASE_MS || plan.None? || plan.value.id != id {
        return Refused;
      }
      if now >= plan.value.deadline {
        plan := None;
        return Refused;
      }
      if sequence > plan.value.leaseSequence {
        plan := Some(plan.value.(leaseSequence := sequence, deadline := now + timeout * 1000));
      }
      return Lease(plan.value.leaseSequence, RemainingMs(plan.value, now));
    }

    method PollOnce(now: int) returns (captured: bool)
      requires plan.Some? ==> plan.value.period > 0
      modifies this
      ensures (State(), captured) == Poll(old(State()), now)
    {
      if plan.None? {
        return false;
      }
      if now >= plan.value.deadline {
        plan := None;
        return false;
      }
      if now < plan.value.next {
        return false;
      }
      var overdue := Div(now - plan.value.next, plan.value.period);
      missedCount := missedCount + overdue;
      plan := Some(plan.value.(next := plan.value.next + (overdue + 1) * plan.value.period));
      plan := Some(plan.value.(completed := plan.value.completed + 1));
      if plan.value.limit != 0 && plan.value.completed >= plan.value.limit {
        plan := None;
      }
      return true;
    }
  }

  // ---------------------------------------------------------------- the bisimulation

  /** How many grid points have passed that the simulator has not looked at yet. */
  function Passed(p: Plan, now: int): nat
    requires p.period > 0
  {
    if now < p.next then 0 else Div(now - p.next, p.period) + 1
  }

  /** The same schedule seen from both sides; base is what the simulator had missed before it
      started. A lease the simulator has not noticed to be over is one the firmware ended. */
  ghost predicate Same(sim: Sim, s: Timer, now: int, base: nat) {
    Valid(s) &&
    (s.active <==> sim.plan.Some? && now < sim.plan.value.deadline) &&
    (sim.plan.Some? ==> sim.plan.value.period >= MIN_PERIOD_US) &&
    (s.active ==>
      var p := sim.plan.value;
      s.id == p.id && s.period == p.period && s.limit == p.limit && s.leaseSequence == p.leaseSequence &&
      s.completed == Wrap(p.completed) && (p.limit != 0 ==> p.completed < p.limit) &&
      s.leaseRemaining == p.deadline - now && s.lastTimeout <= MAX_LEASE_MS &&
      Grid(p, s, now) && Counted(Passed(p, now), sim.missed, s.missed, base))
  }

  predicate Grid(p: Plan, s: Timer, now: int)
    requires p.period > 0
  {
    s.untilDue == p.next + Passed(p, now) * p.period - now && (s.due <==> Passed(p, now) > 0)
  }

  predicate Counted(passed: nat, missed: nat, counted: u32, base: nat) {
    Wrap(base + counted) == Wrap(missed + if passed > 0 then passed - 1 else 0)
  }

  lemma PassedIs(p: Plan, now: int, m: nat, r: nat)
    requires p.period > 0 && r < p.period && now - p.next == (m - 1) * p.period + r
    ensures Passed(p, now) == m
  {
    if m > 0 {
      assert (m - 1) * p.period >= 0;
      Quotient(now - p.next, m - 1, r, p.period);
    }
  }

  lemma Distributes(a: int, b: int, p: int)
    ensures (a + b) * p == a * p + b * p
  {
  }

  /** The countdown after x more microseconds is the grid seen x microseconds later. */
  lemma GridMoves(p: Plan, s: Timer, now: int, x: u32)
    requires Valid(s) && s.active && s.period == p.period && x < s.leaseRemaining && Grid(p, s, now)
    ensures Passed(p, now + x) == Passed(p, now) + Div(Phase(s) + x, s.period)
    ensures Grid(p, Advance(s, x).0, now + x)
  {
    var m, n := Passed(p, now), Div(Phase(s) + x, s.period);
    AdvancePhase(s, x);
    Division(Phase(s) + x, s.period);
    hide Div, Mod, Advance, Wrap;
    Distributes(m, n, p.period);
    Distributes(m + n, -1, p.period);
    assert (m + n - 1) * p.period == m * p.period + n * p.period - p.period;
    PassedIs(p, now + x, m + n, Mod(Phase(s) + x, s.period));
  }

  lemma CountMoves(m: nat, n: nat, missed: nat, s: Timer, base: nat, once: u32)
    requires Counted(m, missed, s.missed, base) && (s.due <==> m > 0)
    requires once == Wrap(s.missed + (if s.due || n == 0 then n else n - 1))
    ensures Counted(m + n, missed, once, base)
  {
    var d := if s.due || n == 0 then n else n - 1;
    WrapAbsorbs(base, s.missed + d);
    WrapAbsorbs(d, base + s.missed);
    WrapAbsorbs(d, missed + (if m > 0 then m - 1 else 0));
    hide Wrap;
  }

  /** Time passing is an advance on one side and nothing at all on the other. */
  lemma TimePasses(sim: Sim, s: Timer, now: int, x: u32, base: nat)
    requires Same(sim, s, now, base)
    ensures Same(sim, Advance(s, x).0, now + x, base)
  {
    hide Div, Mod, Wrap;
    if s.active && x < s.leaseRemaining {
      var p := sim.plan.value;
      AdvancePhase(s, x);
      GridMoves(p, s, now, x);
      CountMoves(Passed(p, now), Div(Phase(s) + x, s.period), sim.missed, s, base, Advance(s, x).0.missed);
      assert Valid(Advance(s, x).0);
      hide Advance, Grid, Passed, Counted;
    }
  }

  /** A poll makes a capture exactly when the firmware has one to claim. */
  lemma PollIsClaim(sim: Sim, s: Timer, now: int, base: nat)
    requires Same(sim, s, now, base)
    ensures Poll(sim, now).1 == Claim(s).1
    ensures Same(Poll(sim, now).0, Claim(s).0, now, base)
  {
    if s.active && s.due {
      var p := sim.plan.value;
      var m := Passed(p, now);
      assert now >= p.next && m == Div(now - p.next, p.period) + 1;
      var q := p.(next := p.next + m * p.period, completed := p.completed + 1);
      Division(now - p.next, p.period);
      Distributes(m - 1, 1, p.period);
      assert Passed(q, now) == 0;
      WrapAbsorbs(1, p.completed);
      hide Div, Mod;
      if p.limit != 0 {
        assert Wrap(p.completed) == p.completed && Wrap(p.completed + 1) == p.completed + 1;
      }
      hide Wrap;
    }
  }

  predicate StartFieldsValid(id: Id16, period: u32, timeout: u16) {
    id != NO_ID && period >= MIN_PERIOD_US && LeaseInRange(timeout)
  }

  /** START is answered alike except when the simulator has not noticed an expired lease. */
  lemma StartAgrees(sim: Sim, s: Timer, now: int, base: nat, id: Id16, period: u32, count: u32, timeout: u16)
    requires Same(sim, s, now, base)
    ensures (StartPeriodic(sim, now, id, period, count, timeout).Some? <==> Start(s, id, period, count, timeout).1.Ok?)
            <==> !(Late(sim, now) && StartFieldsValid(id, period, timeout))
    ensures var r := StartPeriodic(sim, now, id, period, count, timeout);
            r.Some? ==> Same(r.value, Start(s, id, period, count, timeout).0, now, sim.missed)
  {
    hide Div, Mod;
    assert Wrap(sim.missed + 0) == Wrap(sim.missed) && Wrap(0) == 0;
    hide Wrap;
  }

  /** A renewal leaves both alike, except a new sequence whose timeout only the firmware
      finds too short; what the firmware accepts is answered with the same lease. */
  lemma RenewalAgrees(sim: Sim, s: Timer, now: int, base: nat, id: Id16, sequence: u32, timeout: u16)
    requires Same(sim, s, now, base)
    ensures Same(RenewPeriodic(sim, now, id, sequence, timeout).0, Renew(s, id, sequence, timeout).0, now, base)
            <==> !TooShort(s, id, sequence, timeout)
    ensures var (t, r) := Renew(s, id, sequence, timeout);
            r.Ok? ==> RenewPeriodic(sim, now, id, sequence, timeout).1 == Lease(t.leaseSequence, LeaseRemainingMs(t))
  {
    hide Div, Mod, Wrap, Counted;
  }

  predicate TooShort(s: Timer, id: Id16, sequence: u32, timeout: u16) {
    s.active && s.id == id && sequence > s.leaseSequence && timeout < MIN_LEASE_MS
  }

  lemma StopAgrees(sim: Sim, s: Timer, now: int, base: nat, id: Id16)
    requires Same(sim, s, now, base)
    ensures (StopPeriodic(sim, id).Some? <==> Stop(s, id).1.Ok?) <==> !(Late(sim, now) && sim.plan.value.id != id)
    ensures StopPeriodic(sim, id).Some? ==> Same(StopPeriodic(sim, id).value, Stop(s, id).0, now, base)
    ensures StopPeriodic(sim, id).None? ==> Same(sim, Stop(s, id).0, now, base)
  {
    hide Div, Mod, Wrap;
  }

  // ---------------------------------------------------------------- whole runs

  datatype Event =
    | Elapse(us: u32)
    | PollNow
    | StartNow(id: Id16, period: u32, count: u32, timeout: u16)
    | RenewNow(id: Id16, sequence: u32, timeout: u16)
    | StopNow(id: Id16)

  /** Both machines, the time, and the captures each has made. */
  datatype Pair = Pair(
    sim: Sim, timer: Timer, now: int, base: nat, simulated: seq<int>, claimed: seq<int>)

  /** The two differences: a valid START the simulator refuses because it has not noticed an
      expired lease, and a new renewal shorter than the firmware's minimum. */
  predicate Comparable(p: Pair, e: Event) {
    (e.StartNow? ==> !(Late(p.sim, p.now) && StartFieldsValid(e.id, e.period, e.timeout))) &&
    (e.RenewNow? ==> !TooShort(p.timer, e.id, e.sequence, e.timeout))
  }

  function Happen(p: Pair, e: Event): Pair
    requires Valid(p.timer) && (p.sim.plan.Some? ==> p.sim.plan.value.period > 0)
  {
    match e
    case Elapse(us) => p.(timer := Advance(p.timer, us).0, now := p.now + us)
    case PollNow =>
      var (sim, made) := Poll(p.sim, p.now);
      var (timer, claimed) := Claim(p.timer);
      p.(sim := sim, timer := timer,
         simulated := if made then p.simulated + [p.now] else p.simulated,
         claimed := if claimed then p.claimed + [p.now] else p.claimed)
    case StartNow(id, period, count, timeout) =>
      (match StartPeriodic(p.sim, p.now, id, period, count, timeout)
       case None => p.(timer := Start(p.timer, id, period, count, timeout).0)
       case Some(sim) => p.(sim := sim, timer := Start(p.timer, id, period, count, timeout).0, base := p.sim.missed))
    case RenewNow(id, sequence, timeout) =>
      p.(sim := RenewPeriodic(p.sim, p.now, id, sequence, timeout).0, timer := Renew(p.timer, id, sequence, timeout).0)
    case StopNow(id) =>
      (match StopPeriodic(p.sim, id)
       case None => p.(timer := Stop(p.timer, id).0)
       case Some(sim) => p.(sim := sim, timer := Stop(p.timer, id).0))
  }

  ghost predicate Alike(p: Pair) {
    Same(p.sim, p.timer, p.now, p.base) && p.simulated == p.claimed
  }

  /** One event leaves the two machines alike if and only if it is not one of the differences. */
  lemma AlikeExactly(p: Pair, e: Event)
    requires Alike(p)
    ensures Valid(p.timer) && (p.sim.plan.Some? ==> p.sim.plan.value.period > 0)
    ensures Alike(Happen(p, e)) <==> Comparable(p, e)
  {
    match e
    case Elapse(us) => TimePasses(p.sim, p.timer, p.now, us, p.base);
    case PollNow => PollIsClaim(p.sim, p.timer, p.now, p.base);
    case StartNow(id, period, count, timeout) =>
      StartAgrees(p.sim, p.timer, p.now, p.base, id, period, count, timeout);
      StartRefused(p, id, period, count, timeout);
      StartOverlooked(p, id, period, count, timeout);
    case RenewNow(id, sequence, timeout) =>
      RenewalAgrees(p.sim, p.timer, p.now, p.base, id, sequence, timeout);
    case StopNow(id) => StopAgrees(p.sim, p.timer, p.now, p.base, id);
    hide Same, Advance, Claim, Poll, Start, StartPeriodic, Renew, RenewPeriodic, Stop, StopPeriodic;
  }

  /** The firmware starts, the simulator keeps the schedule it should have dropped. */
  lemma StartOverlooked(p: Pair, id: Id16, period: u32, count: u32, timeout: u16)
    requires Alike(p)
    ensures Late(p.sim, p.now) && StartFieldsValid(id, period, timeout) ==>
              !Same(p.sim, Start(p.timer, id, period, count, timeout).0, p.now, p.base) &&
              StartPeriodic(p.sim, p.now, id, period, count, timeout) == None
  {
    hide Div, Mod, Wrap, Counted, Grid;
  }

  lemma StartRefused(p: Pair, id: Id16, period: u32, count: u32, timeout: u16)
    ensures !Start(p.timer, id, period, count, timeout).1.Ok? ==>
              Start(p.timer, id, period, count, timeout).0 == p.timer
  {
  }

  ghost predicate ComparableRun(p: Pair, events: seq<Event>)
    requires Alike(p)
    decreases |events|
  {
    events == [] || (Comparable(p, events[0]) && (AlikeExactly(p, events[0]); ComparableRun(Happen(p, events[0]), events[1..])))
  }

  ghost function Outcome(p: Pair, events: seq<Event>): Pair
    requires Alike(p) && ComparableRun(p, events)
    decreases |events|
  {
    if events == [] then p
    else
      AlikeExactly(p, events[0]);
      Outcome(Happen(p, events[0]), events[1..])
  }

  lemma {:induction false} TwinsStayAlike(p: Pair, events: seq<Event>)
    requires Alike(p) && ComparableRun(p, events)
    ensures Alike(Outcome(p, events))
    decreases |events|
  {
    if events != [] {
      AlikeExactly(p, events[0]);
      TwinsStayAlike(Happen(p, events[0]), events[1..]);
    }
  }

  /** Both machines before any schedule, whatever the simulator missed in earlier ones. */
  function Unscheduled(missed: nat, now: int): (p: Pair)
    ensures Alike(p)
  {
    Pair(Sim(None, missed), IDLE, now, 0, [], [])
  }

  /** From before any schedule and over any comparable run, however time and polls fall, the
      simulator and the firmware make captures at the same instants and stay alike in countdown,
      lease and missed count. */
  lemma SimulatorIsTwin(missed: nat, now: int, events: seq<Event>)
    requires ComparableRun(Unscheduled(missed, now), events)
    ensures var q := Outcome(Unscheduled(missed, now), events);
            q.simulated == q.claimed && Same(q.sim, q.timer, q.now, q.base)
  {
    hide ComparableRun, Outcome;
    TwinsStayAlike(Unscheduled(missed, now), events);
  }
}
