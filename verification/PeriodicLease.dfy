/** The core's renewal controller, and why a device it keeps polling never loses its lease. */
module PeriodicLease {
  import opened Bytes
  import opened Delivery
  import opened Schedule

  datatype PeriodicSchedule = PeriodicSchedule(
    boot: Id16, id: Id16, profile: Hash32, crc: int, period: int, count: int, timeout: int)

  datatype LeaseRenewal = LeaseRenewal(boot: Id16, id: Id16, sequence: nat, timeout: int)

  predicate ScheduleValid(s: PeriodicSchedule) {
    s.boot != NO_ID && s.id != NO_ID && MIN_PERIOD_US <= s.period < WORD && 0 <= s.count < WORD &&
    MIN_LEASE_MS <= s.timeout <= MAX_LEASE_MS
  }

  datatype Error = InvalidSchedule | AlreadyActive | NegativeTime | ClientFailed | ResponseMismatch

  datatype Outcome = NotDue | Renewed | Raised(error: Error)

  datatype Control = Control(schedule: Option<PeriodicSchedule>, sequence: nat, next: int)

  const RELEASED := Control(None, 0, 0)

  function RenewInterval(s: PeriodicSchedule): int {
    if s.timeout / 3 < 1000 then s.timeout / 3 else 1000
  }

  function RenewalOf(c: Control): LeaseRenewal
    requires c.schedule.Some?
  {
    LeaseRenewal(c.schedule.value.boot, c.schedule.value.id, c.sequence + 1, c.schedule.value.timeout)
  }

  /** The device may report less time than was asked for, never more and never none. */
  predicate ResponseMatches(response: LeaseRenewal, renewal: LeaseRenewal) {
    response.boot == renewal.boot && response.id == renewal.id && response.sequence == renewal.sequence &&
    0 < response.timeout <= renewal.timeout
  }

  function Due(c: Control, now: int): bool {
    c.schedule.Some? && now >= c.next
  }

  function AfterResponse(c: Control, now: int, response: Option<LeaseRenewal>): (Control, Outcome)
    requires c.schedule.Some?
  {
    match response
    case None => (c, Raised(ClientFailed))
    case Some(r) =>
      if ResponseMatches(r, RenewalOf(c)) then
        (c.(sequence := c.sequence + 1, next := now + RenewInterval(c.schedule.value)), Renewed)
      else (c.(schedule := None), Raised(ResponseMismatch))
  }

  /** Calls into the device client are the functions passed in; None is an exception. */
  class PeriodicLeaseController {
    var schedule: Option<PeriodicSchedule>
    var sequence: nat
    var next: int

    function State(): Control
      reads this
    {
      Control(schedule, sequence, next)
    }

    constructor ()
      ensures State() == RELEASED
    {
      schedule, sequence, next := None, 0, 0;
    }

    method Start(s: PeriodicSchedule, now: int, accepted: bool) returns (error: Option<Error>)
      modifies this
      ensures error == (if !ScheduleValid(s) then Some(InvalidSchedule)
                        else if old(schedule).Some? then Some(AlreadyActive)
                        else if now < 0 then Some(NegativeTime)
                        else if !accepted then Some(ClientFailed)
                        else None)
      ensures State() == if error.None? then Control(Some(s), 0, now + RenewInterval(s)) else old(State())
    {
      if !ScheduleValid(s) {
        return Some(InvalidSchedule);
      }
      if schedule.Some? {
        return Some(AlreadyActive);
      }
      if now < 0 {
        return Some(NegativeTime);
      }
      if !accepted {
        return Some(ClientFailed);
      }
      schedule := Some(s);
      sequence := 0;
      next := now + RenewInterval(s);
      return None;
    }

    method RenewIfDue(now: int, client: LeaseRenewal -> Option<LeaseRenewal>) returns (outcome: Outcome)
      modifies this
      ensures !Due(old(State()), now) ==> State() == old(State()) && outcome == NotDue
      ensures Due(old(State()), now) ==>
                (State(), outcome) == AfterResponse(old(State()), now, client(RenewalOf(old(State()))))
    {
      if schedule.None? || now < next {
        return NotDue;
      }
      var renewal := LeaseRenewal(schedule.value.boot, schedule.value.id, sequence + 1, schedule.value.timeout);
      var response := client(renewal);
      if response.None? {
        return Raised(ClientFailed);
      }
      if !ResponseMatches(response.value, renewal) {
        schedule := None;
        return Raised(ResponseMismatch);
      }
      sequence := renewal.sequence;
      next := now + RenewInterval(schedule.value);
      return Renewed;
    }

    /** The schedule to send STOP for, if one was active. */
    method Stop() returns (stopped: Option<Id16>)
      modifies this
      ensures stopped == (if old(schedule).Some? then Some(old(schedule).value.id) else None)
      ensures State() == if old(schedule).Some? then RELEASED else old(State())
    {
      if schedule.None? {
        return None;
      }
      stopped := Some(schedule.value.id);
      schedule, sequence, next := None, 0, 0;
    }

    method Finish()
      modifies this
      ensures State() == RELEASED
    {
      schedule, sequence, next := None, 0, 0;
    }
  }

  // ---------------------------------------------------------------- controller and device together

  /** One poll: the time since the last one on the host, in ms, and what the device counted
      meanwhile, in us; a capture may have been claimed. */
  datatype Poll = Poll(elapsedMs: nat, countedUs: u32, claimed: bool)

  datatype Link = Link(control: Control, timer: Timer, now: int, expired: bool)

  /** The firmware's answer to a renewal, reported in whole milliseconds. */
  function Respond(timer: Timer, boot: Id16, r: LeaseRenewal): (Timer, Option<LeaseRenewal>) {
    if 0 <= r.timeout < 0x1_0000 && r.sequence < WORD then
      var (t, result) := Renew(timer, r.id, r.sequence, r.timeout);
      (t, if result.Ok? then Some(LeaseRenewal(boot, t.id, t.leaseSequence, LeaseRemainingMs(t))) else None)
    else (timer, None)
  }

  /** The device's side of a poll: time is charged and, if due, a capture claimed. */
  function Counted(t: Timer, p: Poll): Timer
    requires Valid(t)
  {
    var u := Advance(t, p.countedUs).0;
    if p.claimed then Claim(u).0 else u
  }

  function Turn(l: Link, boot: Id16, p: Poll): Link
    requires Valid(l.timer)
  {
    var u := Counted(l.timer, p);
    var now := l.now + p.elapsedMs;
    var expired := l.expired || Advance(l.timer, p.countedUs).1.Expired?;
    if Due(l.control, now) then
      var (v, response) := Respond(u, boot, RenewalOf(l.control));
      Link(AfterResponse(l.control, now, response).0, v, now, expired)
    else Link(l.control, u, now, expired)
  }

  function HostTime(polls: seq<Poll>, k: nat): nat
    requires k <= |polls|
  {
    if k == 0 then 0 else HostTime(polls, k - 1) + polls[k - 1].elapsedMs
  }

  function DeviceTime(polls: seq<Poll>, k: nat): nat
    requires k <= |polls|
  {
    if k == 0 then 0 else DeviceTime(polls, k - 1) + polls[k - 1].countedUs
  }

  /** Polls come at most gap apart, and over any stretch of polls the device's clock is ahead
      of the host's by at most slack. */
  ghost predicate Regular(polls: seq<Poll>, gap: nat, slack: nat) {
    (forall i :: 0 <= i < |polls| ==> polls[i].elapsedMs <= gap) &&
    forall i, j :: 0 <= i <= j <= |polls| ==>
      DeviceTime(polls, j) - DeviceTime(polls, i) <= 1000 * (HostTime(polls, j) - HostTime(polls, i)) + slack
  }

  /** The device holds this lease, with n captures claimed and this much of it left. */
  predicate TimerHeld(t: Timer, s: PeriodicSchedule, n: nat, left: int, sequence: nat) {
    Valid(t) && t.active && t.id == s.id && t.limit == s.count && (s.count != 0 ==> t.completed == n < s.count) &&
    t.leaseSequence == sequence && t.lastTimeout == s.timeout && t.leaseRemaining == left
  }

  /** Last extended at poll r, the lease is held by both sides; n captures were claimed, fewer
      than a limited schedule asks for. */
  predicate Held(l: Link, s: PeriodicSchedule, polls: seq<Poll>, start: int, r: nat, k: nat, n: nat)
    requires r <= k <= |polls|
  {
    !l.expired && l.control.schedule == Some(s) && l.control.sequence <= k &&
    TimerHeld(l.timer, s, n, 1000 * s.timeout - (DeviceTime(polls, k) - DeviceTime(polls, r)), l.control.sequence) &&
    l.now == start + HostTime(polls, k) < l.control.next &&
    l.control.next == start + HostTime(polls, r) + RenewInterval(s)
  }

  /** The device has made every capture it was asked for and stopped by itself; its lease never
      ran out, and the host has not yet been told. */
  predicate Finished(l: Link, s: PeriodicSchedule) {
    !l.expired && !l.timer.active && l.timer.id == s.id && l.timer.completed == s.count != 0 &&
    l.control.schedule == Some(s)
  }

  /** This poll claims a capture. */
  predicate Captures(l: Link, p: Poll)
    requires Valid(l.timer)
  {
    p.claimed && Claim(Advance(l.timer, p.countedUs).0).1
  }

  function LinkAfter(l: Link, boot: Id16, polls: seq<Poll>, k: nat): (m: Link)
    requires Valid(l.timer) && k <= |polls|
    ensures Valid(m.timer)
  {
    if k == 0 then l
    else
      TurnValid(LinkAfter(l, boot, polls, k - 1), boot, polls[k - 1]);
      Turn(LinkAfter(l, boot, polls, k - 1), boot, polls[k - 1])
  }

  function ClaimsMade(l: Link, boot: Id16, polls: seq<Poll>, k: nat): nat
    requires Valid(l.timer) && k <= |polls|
  {
    if k == 0 then 0
    else ClaimsMade(l, boot, polls, k - 1) + if Captures(LinkAfter(l, boot, polls, k - 1), polls[k - 1]) then 1 else 0
  }

  lemma TurnValid(l: Link, boot: Id16, p: Poll)
    requires Valid(l.timer)
    ensures Valid(Turn(l, boot, p).timer)
  {
    CountedValid(l.timer, p);
    var u := Counted(l.timer, p);
    if Due(l.control, l.now + p.elapsedMs) {
      RespondValid(u, boot, RenewalOf(l.control));
    }
    hide Counted, Respond, Valid, AfterResponse, RenewalOf, Advance;
  }

  lemma RespondValid(t: Timer, boot: Id16, r: LeaseRenewal)
    requires Valid(t)
    ensures Valid(Respond(t, boot, r).0)
  {
  }

  lemma {:induction false} ClocksAdvance(polls: seq<Poll>, r: nat, k: nat)
    requires r <= k <= |polls|
    ensures DeviceTime(polls, r) <= DeviceTime(polls, k) && HostTime(polls, r) <= HostTime(polls, k)
  {
    if r < k {
      ClocksAdvance(polls, r, k - 1);
    }
  }

  lemma TimeWithinLease(s: PeriodicSchedule, polls: seq<Poll>, r: nat, k: nat, gap: nat, slack: nat)
    requires ScheduleValid(s) && r <= k < |polls| && Regular(polls, gap, slack)
    requires 1000 * (RenewInterval(s) + gap) + slack < 1000 * s.timeout
    requires HostTime(polls, k) < HostTime(polls, r) + RenewInterval(s)
    ensures DeviceTime(polls, k + 1) == DeviceTime(polls, k) + polls[k].countedUs
    ensures HostTime(polls, k + 1) == HostTime(polls, k) + polls[k].elapsedMs
    ensures DeviceTime(polls, k + 1) - DeviceTime(polls, r) < 1000 * s.timeout
    ensures DeviceTime(polls, r) <= DeviceTime(polls, k)
  {
    ClocksAdvance(polls, r, k);
    var device, host := DeviceTime(polls, k + 1) - DeviceTime(polls, r), HostTime(polls, k + 1) - HostTime(polls, r);
    assert device <= 1000 * host + slack;
  }

  /** Time below the lease: nothing expires, and only the last claim of a limited schedule ends it. */
  lemma CountedHeld(t: Timer, s: PeriodicSchedule, p: Poll, n: nat, left: int, sequence: nat)
    requires ScheduleValid(s) && TimerHeld(t, s, n, left, sequence) && p.countedUs < left
    ensures !Advance(t, p.countedUs).1.Expired?
    ensures var claims := if p.claimed && Claim(Advance(t, p.countedUs).0).1 then n + 1 else n;
            var u := Counted(t, p);
            if s.count != 0 && claims == s.count then !u.active && u.id == s.id && u.completed == s.count
            else TimerHeld(u, s, claims, left - p.countedUs, sequence)
  {
    hide Div, Mod;
    CountedValid(t, p);
  }

  lemma CountedValid(t: Timer, p: Poll)
    requires Valid(t)
    ensures Valid(Counted(t, p))
  {
    OperationsKeepValid(t, t.id, 0, 0, 0, 0, p.countedUs);
    hide Advance, Claim;
    OperationsKeepValid(Advance(t, p.countedUs).0, t.id, 0, 0, 0, 0, p.countedUs);
  }

  /** A renewal in time is granted in full, and the controller takes the answer. */
  lemma RenewalHeld(c: Control, t: Timer, s: PeriodicSchedule, n: nat, left: int, now: int)
    requires ScheduleValid(s) && c.schedule == Some(s) && c.sequence < WORD - 1
    requires TimerHeld(t, s, n, left, c.sequence)
    ensures var (v, response) := Respond(t, s.boot, RenewalOf(c));
            TimerHeld(v, s, n, 1000 * s.timeout, c.sequence + 1) &&
            AfterResponse(c, now, response).0 == c.(sequence := c.sequence + 1, next := now + RenewInterval(s))
  {
  }

  /** A device that has stopped refuses it, and the controller keeps its schedule. */
  lemma RenewalRefused(c: Control, t: Timer, boot: Id16, now: int)
    requires c.schedule.Some? && !t.active
    ensures var (v, response) := Respond(t, boot, RenewalOf(c)); v == t && AfterResponse(c, now, response).0 == c
  {
  }

  /** A renewal whose answer was lost is asked again under the same number. The device answers it from the
      lease that remains and does not extend it, and the controller takes the answer exactly when at
      least a millisecond remains. */
  lemma RenewalRetried(c: Control, t: Timer, s: PeriodicSchedule, n: nat, left: int, elapsed: u32, now: int)
    requires ScheduleValid(s) && c.schedule == Some(s) && c.sequence < WORD - 1
    requires TimerHeld(t, s, n, left, c.sequence) && elapsed < 1000 * s.timeout
    ensures var granted := Respond(t, s.boot, RenewalOf(c)).0;
            Valid(granted) &&
            var later := Advance(granted, elapsed).0;
            var remaining := 1000 * s.timeout - elapsed;
            Respond(later, s.boot, RenewalOf(c)) ==
              (later, Some(LeaseRenewal(s.boot, s.id, c.sequence + 1, remaining / 1000))) &&
            later.leaseRemaining == remaining &&
            (AfterResponse(c, now, Some(LeaseRenewal(s.boot, s.id, c.sequence + 1, remaining / 1000))).1 == Renewed <==>
              remaining >= 1000)
  {
    RenewalHeld(c, t, s, n, left, now);
    hide Div, Mod;
  }

  /** After a renewal the next is due when a second or a third of the lease has passed, whichever is
      sooner, and not before. */
  lemma RenewalDue(c: Control, s: PeriodicSchedule, now: int, response: LeaseRenewal, later: int)
    requires ScheduleValid(s) && c.schedule == Some(s) && ResponseMatches(response, RenewalOf(c)) && now <= later
    ensures var d := AfterResponse(c, now, Some(response)).0;
            Due(d, later) <==> later - now >= 1000 || 3 * (later - now) > s.timeout - 3
  {
  }

  lemma TurnHolds(l: Link, s: PeriodicSchedule, polls: seq<Poll>, start: int, r: nat, k: nat, n: nat, gap: nat, slack: nat)
    requires ScheduleValid(s) && k < |polls| < WORD - 1 && r <= k && Held(l, s, polls, start, r, k, n)
    requires Regular(polls, gap, slack) && 1000 * (RenewInterval(s) + gap) + slack < 1000 * s.timeout
    ensures var m := Turn(l, s.boot, polls[k]);
            var claims := if Captures(l, polls[k]) then n + 1 else n;
            if s.count != 0 && claims == s.count then Finished(m, s)
            else Held(m, s, polls, start, r, k + 1, claims) || Held(m, s, polls, start, k + 1, k + 1, claims)
  {
    TimeWithinLease(s, polls, r, k, gap, slack);
    hide Regular, DeviceTime, HostTime, TimerHeld, Counted, Advance, Claim, Respond, AfterResponse, RenewInterval, ScheduleValid,
      Valid, RenewalOf;
    var left := 1000 * s.timeout - (DeviceTime(polls, k) - DeviceTime(polls, r));
    var claims := if Captures(l, polls[k]) then n + 1 else n;
    var u := Counted(l.timer, polls[k]);
    var now := l.now + polls[k].elapsedMs;
    CountedHeld(l.timer, s, polls[k], n, left, l.control.sequence);
    if s.count != 0 && claims == s.count {
      RenewalRefused(l.control, u, s.boot, now);
    } else {
      RenewalHeld(l.control, u, s, claims, left - polls[k].countedUs, now);
      IntervalPositive(s);
    }
  }

  lemma IntervalPositive(s: PeriodicSchedule)
    requires ScheduleValid(s)
    ensures RenewInterval(s) > 0
  {
  }

  ghost predicate StillHeld(l: Link, s: PeriodicSchedule, polls: seq<Poll>, start: int, k: nat, n: nat)
    requires k <= |polls|
  {
    exists r :: 0 <= r <= k && Held(l, s, polls, start, r, k, n)
  }

  lemma TurnStillHolds(l: Link, s: PeriodicSchedule, polls: seq<Poll>, start: int, k: nat, n: nat, gap: nat, slack: nat)
    requires ScheduleValid(s) && k < |polls| < WORD - 1 && StillHeld(l, s, polls, start, k, n)
    requires Regular(polls, gap, slack) && 1000 * (RenewInterval(s) + gap) + slack < 1000 * s.timeout
    ensures Valid(l.timer)
    ensures var m := Turn(l, s.boot, polls[k]);
            var claims := if Captures(l, polls[k]) then n + 1 else n;
            if s.count != 0 && claims == s.count then Finished(m, s) else StillHeld(m, s, polls, start, k + 1, claims)
  {
    var r :| 0 <= r <= k && Held(l, s, polls, start, r, k, n);
    assert Valid(l.timer);
    hide Held, Regular, Turn, Valid, Captures, Finished;
    TurnHolds(l, s, polls, start, r, k, n, gap, slack);
  }

  /** A finished device claims nothing more, refuses renewals and never reports an expiry. */
  lemma TurnStaysFinished(l: Link, s: PeriodicSchedule, p: Poll)
    requires Finished(l, s)
    ensures Valid(l.timer) && Finished(Turn(l, s.boot, p), s) && !Captures(l, p)
  {
  }

  /** A controller polled often enough never loses the lease: if the renewal interval plus the
      largest gap between polls, and the device clock's lead, is below the timeout, then after
      every poll the schedule is still active and both sides agree on the lease sequence, until
      the last capture of a limited schedule is claimed. From then on the device has stopped by
      itself with exactly that many captures. In no case does the lease expire. */
  lemma {:induction false} NeverLost(
    l: Link, s: PeriodicSchedule, polls: seq<Poll>, start: int, k: nat, gap: nat, slack: nat)
    requires ScheduleValid(s) && k <= |polls| < WORD - 1 && Regular(polls, gap, slack)
    requires 1000 * (RenewInterval(s) + gap) + slack < 1000 * s.timeout
    requires Valid(l.timer) && StillHeld(l, s, polls, start, 0, 0)
    ensures var claims := ClaimsMade(l, s.boot, polls, k);
            var m := LinkAfter(l, s.boot, polls, k);
            !m.expired && (s.count != 0 ==> claims <= s.count) &&
            if s.count != 0 && claims == s.count then Finished(m, s) else StillHeld(m, s, polls, start, k, claims)
  {
    hide Regular, StillHeld, ScheduleValid, Valid, Turn, RenewInterval, Captures, Finished;
    if k > 0 {
      NeverLost(l, s, polls, start, k - 1, gap, slack);
      var m, claims := LinkAfter(l, s.boot, polls, k - 1), ClaimsMade(l, s.boot, polls, k - 1);
      if s.count != 0 && claims == s.count {
        TurnStaysFinished(m, s, polls[k - 1]);
      } else {
        TurnStillHolds(m, s, polls, start, k - 1, claims, gap, slack);
      }
    }
    Unexpired(LinkAfter(l, s.boot, polls, k), s, polls, start, k, ClaimsMade(l, s.boot, polls, k));
  }

  lemma Unexpired(l: Link, s: PeriodicSchedule, polls: seq<Poll>, start: int, k: nat, n: nat)
    requires k <= |polls|
    ensures StillHeld(l, s, polls, start, k, n) ==> !l.expired && (s.count != 0 ==> n < s.count)
    ensures Finished(l, s) ==> !l.expired
  {
  }

  /** An accepted START begins such a run, whatever its limit. */
  lemma StartHolds(s: PeriodicSchedule, t: Timer, now: int, polls: seq<Poll>)
    requires ScheduleValid(s)
    ensures var (u, r) := Schedule.Start(t, s.id, s.period, s.count, s.timeout);
            r.Ok? ==> StillHeld(Link(Control(Some(s), 0, now + RenewInterval(s)), u, now, false), s, polls, now, 0, 0)
  {
    var (u, r) := Schedule.Start(t, s.id, s.period, s.count, s.timeout);
    assert r.Ok? ==> Held(Link(Control(Some(s), 0, now + RenewInterval(s)), u, now, false), s, polls, now, 0, 0, 0);
  }
}
