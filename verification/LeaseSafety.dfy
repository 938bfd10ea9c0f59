/** The lease against real time: the ACLK interrupt counts quanta, the main loop charges them to
    the schedule, and the schedule cannot outlive its lease by more than one quantum. */
module LeaseSafety {
  import opened Bytes
  import opened Schedule

  const ACLK_HZ := 32768
  const QUANTUM_TICKS := 320
  const QUANTUM_US := 9766
  const COUNTER_MAX := 0xFFFF

  /** counter is the interrupt's saturating count of quanta the main loop has not charged yet;
      ticks and quanta are what really passed since the lease was last extended. */
  datatype Board = Board(timer: Timer, counter: u16, phase: nat, ticks: nat, quanta: nat, granted: u16)

  datatype Happening =
    | AclkTick
    | MainLoopTop
    | Request(op: Operation)
    | StartRequest(id: Id16, period: u32, count: u32, timeout: u16)
    | StopRequest(id: Id16)

  function Quantum(b: Board): Board {
    b.(phase := 0, quanta := b.quanta + 1, counter := if b.counter != COUNTER_MAX then b.counter + 1 else b.counter)
  }

  /** Charge the counted quanta; the product fits a 32-bit word. */
  function Charge(b: Board): Board
    requires Valid(b.timer)
  {
    if b.counter == 0 then b
    else b.(counter := 0, timer := Advance(b.timer, b.counter * QUANTUM_US).0)
  }

  function Next(b: Board, h: Happening): Board
    requires Valid(b.timer)
  {
    match h
    case AclkTick =>
      var c := b.(ticks := b.ticks + 1, phase := b.phase + 1);
      if c.phase >= QUANTUM_TICKS then Quantum(c) else c
    case MainLoopTop => Charge(b)
    case Request(op) =>
      if op.Tick? then b
      else if Fresh(b.timer, op) then b.(timer := Do(b.timer, op), ticks := 0, quanta := 0, granted := op.timeout)
      else b.(timer := Do(b.timer, op))
    case StartRequest(id, period, count, timeout) =>
      var (t, r) := Start(b.timer, id, period, count, timeout);
      if r.Ok? then b.(timer := t, ticks := 0, quanta := 0, granted := timeout) else b
    case StopRequest(id) => b.(timer := Stop(b.timer, id).0)
  }

  /** No quantum since the last extension is forgotten: it was charged or is still counted,
      unless the counter is full, and then it alone exceeds any lease. */
  predicate Honest(b: Board) {
    Valid(b.timer) && b.phase < QUANTUM_TICKS &&
    (b.timer.active ==>
      b.granted == b.timer.lastTimeout && b.ticks <= QUANTUM_TICKS * b.quanta + b.phase &&
      (b.counter < COUNTER_MAX ==>
        QUANTUM_US * b.quanta <= 1000 * b.granted - b.timer.leaseRemaining + QUANTUM_US * b.counter))
  }

  lemma ChargeHonest(b: Board)
    requires Honest(b)
    ensures Honest(Charge(b)) && Charge(b).counter == 0
  {
    hide Div, Mod, Wrap;
    var t := Advance(b.timer, b.counter * QUANTUM_US);
    if b.timer.active && b.counter == COUNTER_MAX {
      assert b.counter * QUANTUM_US > 1000 * b.timer.lastTimeout;
      assert t.1.Expired?;
    }
  }

  lemma NextHonest(b: Board, h: Happening)
    requires Honest(b)
    ensures Honest(Next(b, h))
  {
    hide Div, Mod, Wrap;
    match h
    case MainLoopTop => ChargeHonest(b);
    case _ =>
  }

  function Run(b: Board, hs: seq<Happening>): (r: Board)
    requires Honest(b)
    ensures Valid(r.timer)
    decreases |hs|
  {
    if hs == [] then b
    else
      NextHonest(b, hs[0]);
      Run(Next(b, hs[0]), hs[1..])
  }

  lemma {:induction false} RunHonest(b: Board, hs: seq<Happening>)
    requires Honest(b)
    ensures Honest(Run(b, hs))
    decreases |hs|
  {
    assert Valid(b.timer);
    hide Honest, Next;
    if hs != [] {
      NextHonest(b, hs[0]);
      RunHonest(Next(b, hs[0]), hs[1..]);
    }
  }

  /** Fail-safe: whatever interrupts, requests and loop passes led here, once the main loop has
      charged its time an active schedule was started or freshly renewed less than its granted
      lease plus one quantum ago, measured in crystal ticks. */
  lemma LeaseEnds(b: Board, hs: seq<Happening>)
    requires Honest(b)
    ensures var c := Charge(Run(b, hs));
            c.timer.active ==> 1000 * c.ticks < ACLK_HZ * c.granted + 1000 * QUANTUM_TICKS
  {
    hide Run, Charge;
    RunHonest(b, hs);
    ChargeHonest(Run(b, hs));
  }

  /** Until it is charged a full counter has lost count, but any lease ends at the next charge. */
  lemma SaturationExpires(b: Board)
    requires Honest(b) && b.timer.active && b.counter == COUNTER_MAX
    ensures !Charge(b).timer.active
  {
    hide Div, Mod, Wrap;
    assert b.counter * QUANTUM_US > 1000 * b.timer.lastTimeout;
  }

  // ---------------------------------------------------------------- nor is it cut short

  /** Nothing but time acts on the lease: no fresh renewal, no STOP of this schedule, no claim that
      completes it. */
  predicate LeavesLease(b: Board, h: Happening)
    requires Valid(b.timer)
  {
    match h
    case Request(op) => op.Tick? || (!Fresh(b.timer, op) && Do(b.timer, op).active)
    case StopRequest(id) => id != b.timer.id
    case _ => true
  }

  /** The schedule is active before each of these happenings, and each leaves its lease to time. */
  predicate LeaseRuns(b: Board, hs: seq<Happening>)
    requires Honest(b)
    decreases |hs|
  {
    hs == [] ||
    (b.timer.active && LeavesLease(b, hs[0]) &&
     (NextHonest(b, hs[0]);
      LeaseRuns(Next(b, hs[0]), hs[1..])))
  }

  /** pending quanta were counted but not charged when the lease was extended, in this phase. The
      lease has been charged every quantum since, and these; a full counter may have lost some. */
  predicate Charged(b: Board, pending: nat, phase: nat) {
    QUANTUM_TICKS * b.quanta + b.phase == b.ticks + phase &&
    b.counter <= b.quanta + pending &&
    if b.timer.active then
      var owed := QUANTUM_US * (b.quanta + pending);
      var known := 1000 * b.granted - b.timer.leaseRemaining + QUANTUM_US * b.counter;
      known <= owed && (b.counter < COUNTER_MAX ==> known == owed)
    else 1000 * b.granted <= QUANTUM_US * (b.quanta + pending)
  }

  lemma NextCharged(b: Board, h: Happening, pending: nat, phase: nat)
    requires Honest(b) && Charged(b, pending, phase) && b.timer.active && LeavesLease(b, h)
    ensures Charged(Next(b, h), pending, phase) && Next(b, h).granted == b.granted
  {
    hide Div, Mod, Wrap;
  }

  lemma {:induction false} RunCharged(b: Board, hs: seq<Happening>, pending: nat, phase: nat)
    requires Honest(b) && LeaseRuns(b, hs) && Charged(b, pending, phase)
    ensures Charged(Run(b, hs), pending, phase) && Run(b, hs).granted == b.granted
    decreases |hs|
  {
    assert Valid(b.timer);
    hide Honest, Next, LeavesLease, Charged;
    if hs != [] {
      NextHonest(b, hs[0]);
      NextCharged(b, hs[0], pending, phase);
      RunCharged(Next(b, hs[0]), hs[1..], pending, phase);
    }
  }

  /** A quantum is charged as its 320 crystal ticks rounded up to a whole microsecond. */
  lemma QuantumRoundsUp(n: nat)
    ensures 1_000_000 * QUANTUM_TICKS * n <= QUANTUM_US * ACLK_HZ * n
    ensures n > 0 ==> QUANTUM_US * ACLK_HZ * n < (1_000_000 * QUANTUM_TICKS + ACLK_HZ) * n
  {
  }

  predicate JustExtended(b: Board) {
    b.timer.active && b.ticks == 0 && b.quanta == 0 && b.timer.leaseRemaining == 1000 * b.granted
  }

  /** An accepted START and a fresh renewal are such moments. */
  lemma ExtensionsBegin(b: Board, op: Operation, id: Id16, period: u32, count: u32, timeout: u16)
    requires Valid(b.timer)
    ensures Fresh(b.timer, op) ==> JustExtended(Next(b, Request(op)))
    ensures Start(b.timer, id, period, count, timeout).1.Ok? ==>
              JustExtended(Next(b, StartRequest(id, period, count, timeout)))
  {
  }

  /** Whatever interrupts, loop passes and requests follow an extension, if only time acts on the
      lease, then at each charge the schedule is still active exactly when the quanta that passed,
      with those not yet charged at the extension, take less than the lease; and a quantum is at
      least its ticks and less than one microsecond more. */
  lemma LeaseExactly(b: Board, hs: seq<Happening>)
    requires Honest(b) && JustExtended(b) && LeaseRuns(b, hs)
    ensures var r := Run(b, hs);
            var n := r.quanta + b.counter;
            QUANTUM_TICKS * r.quanta + r.phase == r.ticks + b.phase && r.granted == b.granted &&
            (Charge(r).timer.active <==> QUANTUM_US * n < 1000 * b.granted) &&
            (Charge(r).timer.active ==> 1_000_000 * QUANTUM_TICKS * n < 1000 * b.granted * ACLK_HZ) &&
            (!Charge(r).timer.active ==> 1000 * b.granted * ACLK_HZ < (1_000_000 * QUANTUM_TICKS + ACLK_HZ) * n)
  {
    hide *;
    StartsCharged(b);
    RunCharged(b, hs, b.counter, b.phase);
    RunHonest(b, hs);
    ChargeDecides(Run(b, hs), b.counter, b.phase);
  }

  lemma StartsCharged(b: Board)
    requires Honest(b) && JustExtended(b)
    ensures Charged(b, b.counter, b.phase) && LeaseInRange(b.granted)
  {
  }

  lemma ChargeDecides(r: Board, pending: nat, phase: nat)
    requires Honest(r) && Charged(r, pending, phase) && LeaseInRange(r.granted)
    ensures var n := r.quanta + pending;
            QUANTUM_TICKS * r.quanta + r.phase == r.ticks + phase &&
            (Charge(r).timer.active <==> QUANTUM_US * n < 1000 * r.granted) &&
            (Charge(r).timer.active ==> 1_000_000 * QUANTUM_TICKS * n < 1000 * r.granted * ACLK_HZ) &&
            (!Charge(r).timer.active ==> 1000 * r.granted * ACLK_HZ < (1_000_000 * QUANTUM_TICKS + ACLK_HZ) * n)
  {
    QuantumRoundsUp(r.quanta + pending);
    hide Div, Mod, Wrap;
  }
}
