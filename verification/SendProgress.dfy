/** A capture that waits to be sent can always be sent: when the session stays and the USB engine
    takes and finishes what it is given, the loop completes the frame by itself. */
module SendProgress {
  import opened Bytes
  import opened Delivery
  import opened CaptureStream
  import opened MainLoop

  /** The loop's own steps, with a USB connection that stays and takes every segment, and the
      interrupt of a finished transfer: no capture, no command, no change of the session. */
  predicate Smooth(a: Action) {
    a.UsbCompletes? || a.RunSession? || a.RunCompletion? || (a.RunPeriodic? && a.captured.None?) ||
    (a.RunArbitrate? && a.first && a.result.SendStarted?)
  }

  predicate AllSmooth(actions: seq<Action>) {
    forall a :: a in actions ==> Smooth(a)
  }

  /** A closed gate is opened by something still to come. */
  predicate GateMoves(l: Loop) {
    l.gateBusy ==> l.usb != Nothing || l.sendComplete
  }

  /** A session, and a frame to send in it. */
  predicate Going(sha: Sha, l: Loop) {
    Inv(sha, l) && GateMoves(l) && l.ready && l.pending
  }

  lemma StepGateMoves(sha: Sha, l: Loop, a: Action)
    requires Inv(sha, l) && GateMoves(l) && Enabled(l, a)
    ensures GateMoves(Next(sha, l, a))
  {
    hide AllDelivered, Build, Sent, Left, Fits, InTransit;
  }

  lemma {:induction false} RunGateMoves(sha: Sha, l: Loop, actions: seq<Action>)
    requires Inv(sha, l) && GateMoves(l) && HarmlessRun(sha, l, actions)
    ensures GateMoves(Run(sha, l, actions))
    decreases |actions|
  {
    hide Inv, Enabled, Next, Harmless, GateMoves;
    if actions != [] {
      StepKeeps(sha, l, actions[0]);
      StepGateMoves(sha, l, actions[0]);
      RunGateMoves(sha, Next(sha, l, actions[0]), actions[1..]);
    }
  }

  // ---------------------------------------------------------------- one pass at a time

  /** The step of the loop that is next. */
  function Turn(l: Loop): Action {
    match l.place
    case Session => RunSession(Current(l), 0)
    case Completion => RunCompletion
    case Periodic => RunPeriodic(None)
    case Arbitrate => RunArbitrate(true, true, SendStarted, Current(l), None, true)
  }

  function Steps(l: Loop): seq<Action> {
    if l.usb.Nothing? then [Turn(l)] else [UsbCompletes, Turn(l)]
  }

  /** The loop after the transfer under way has finished and one more step was run. */
  function Round(sha: Sha, l: Loop): Loop
    requires Fits(l.descriptor)
  {
    Next(sha, UsbCompleted(l), Turn(l))
  }

  /** The places passed until p. */
  function Until(from: Place, p: nat): nat {
    var at := match from case Session => 0 case Completion => 1 case Periodic => 2 case Arbitrate => 3;
    if at <= p then p - at else 4 + p - at
  }

  /** How far the frame is from its end: segments to start and to complete, and the way to the
      place where the next of these happens. */
  function Distance(l: Loop): nat
    requires l.stream.phase < 4 || !l.started
  {
    var stage := if !l.started then 8 else if l.tx == InFlight then 7 - 2 * l.stream.phase else 8 - 2 * l.stream.phase;
    10 * stage + if l.gateBusy then 5 + Until(l.place, 1) else Until(l.place, 3)
  }

  /** What is held now was completed, and the loop will look at its input. */
  predicate Completes(l: Loop, m: Loop) {
    !m.pending && m.dataPending && !m.started && |m.delivered| == |l.delivered| + 1 && m.delivered[..|l.delivered|] == l.delivered &&
    var x := m.delivered[|l.delivered|];
    x.descriptor == l.descriptor && x.waveform == l.waveform
  }

  predicate Closer(sha: Sha, l: Loop, m: Loop) {
    Going(sha, m) && m.descriptor == l.descriptor && m.waveform == l.waveform && m.delivered == l.delivered &&
    (m.stream.phase < 4 || !m.started) && (l.stream.phase < 4 || !l.started) && Distance(m) < Distance(l)
  }

  lemma UsbGoing(sha: Sha, l: Loop)
    requires Going(sha, l)
    ensures var m := UsbCompleted(l);
            Going(sha, m) && m.place == l.place && m.descriptor == l.descriptor && m.waveform == l.waveform &&
            m.delivered == l.delivered && m.started == l.started && m.gateBusy == l.gateBusy && m.tx == l.tx &&
            m.stream == l.stream && m.usb == Nothing && m.pending && m.ready && (m.gateBusy ==> m.sendComplete)
  {
    UsbKeeps(sha, l);
    hide Inv, InTransit;
  }

  lemma TurnFits(l: Loop)
    requires Fits(l.descriptor)
    ensures Enabled(l, Turn(l)) && Harmless(l, Turn(l)) && Smooth(Turn(l))
  {
    hide Fits;
  }

  lemma OwnedFacts(sha: Sha, l: Loop)
    requires Inv(sha, l)
    ensures Fits(l.descriptor)
    ensures l.started ==> l.stream.active && l.stream.phase < 4 && (l.tx == Ready || l.tx == InFlight)
    ensures l.started && l.tx == InFlight ==> l.gateBusy
  {
    hide AllDelivered, Build, Sent, Left, Fits;
  }

  /** Between two transfers, with a frame to send. */
  predicate Resting(u: Loop) {
    Fits(u.descriptor) && u.ready && u.pending && (u.gateBusy ==> u.sendComplete) &&
    (u.started ==> u.stream.active && u.stream.phase < 4 && (u.tx == Ready || u.tx == InFlight)) &&
    (u.started && u.tx == InFlight ==> u.gateBusy)
  }

  predicate Nearer(l: Loop, m: Loop) {
    m.ready && m.pending && m.descriptor == l.descriptor && m.waveform == l.waveform && m.delivered == l.delivered &&
    (l.stream.phase < 4 || !l.started) && (m.stream.phase < 4 || !m.started) && Distance(m) < Distance(l)
  }

  lemma CompletionNearer(u: Loop)
    requires Resting(u) && u.place == Completion
    ensures var m := CompletionStep(u); Nearer(u, m) || Completes(u, m)
  {
    hide Fits;
  }

  lemma ArbitrateNearer(sha: Sha, u: Loop)
    requires Resting(u) && u.place == Arbitrate && (u.sendComplete ==> u.gateBusy)
    ensures Nearer(u, ArbitrateStep(sha, u, Turn(u)))
  {
    BuildPhase(sha, u.descriptor, u.waveform);
    hide Fits, Build, Sent;
  }

  lemma TurnNearer(sha: Sha, u: Loop)
    requires Resting(u) && (u.sendComplete ==> u.gateBusy)
    ensures var m := Next(sha, u, Turn(u)); Nearer(u, m) || Completes(u, m)
  {
    hide CompletionStep, ArbitrateStep, Completes, Fits;
    match u.place
    case Session =>
    case Completion => CompletionNearer(u);
    case Periodic =>
    case Arbitrate => ArbitrateNearer(sha, u);
  }

  lemma RestsAfter(sha: Sha, l: Loop)
    requires Going(sha, l)
    ensures var u := UsbCompleted(l);
            Resting(u) && (u.sendComplete ==> u.gateBusy) && Distance(u) == Distance(l) && Turn(u) == Turn(l) && Inv(sha, u) &&
            u.descriptor == l.descriptor && u.waveform == l.waveform && u.delivered == l.delivered &&
            u.stream == l.stream && u.started == l.started && GateMoves(u)
  {
    UsbGoing(sha, l);
    OwnedFacts(sha, l);
    OwnedFacts(sha, UsbCompleted(l));
    hide Inv, Fits, InTransit;
    GatedFacts(sha, UsbCompleted(l));
  }

  lemma GatedFacts(sha: Sha, u: Loop)
    requires Inv(sha, u)
    ensures u.sendComplete ==> u.gateBusy
  {
    hide Owned, AllDelivered, Fits;
  }

  lemma RoundCloser(sha: Sha, l: Loop)
    requires Going(sha, l)
    ensures Fits(l.descriptor)
    ensures var m := Round(sha, l); Closer(sha, l, m) || Completes(l, m)
  {
    var u := UsbCompleted(l);
    OwnedFacts(sha, l);
    RestsAfter(sha, l);
    TurnFits(u);
    TurnNearer(sha, u);
    StepKeeps(sha, u, Turn(u));
    StepGateMoves(sha, u, Turn(u));
    hide Inv, Fits, UsbCompleted, Next, Distance, GateMoves, Turn;
  }

  /** Running the next round and then the rest. */
  lemma RoundThen(sha: Sha, l: Loop, rest: seq<Action>)
    requires Going(sha, l) && HarmlessRun(sha, Round(sha, l), rest)
    ensures HarmlessRun(sha, l, Steps(l) + rest) && Run(sha, l, Steps(l) + rest) == Run(sha, Round(sha, l), rest)
    ensures AllSmooth(rest) ==> AllSmooth(Steps(l) + rest)
  {
    var u := UsbCompleted(l);
    UsbGoing(sha, l);
    OwnedFacts(sha, l);
    OwnedFacts(sha, u);
    TurnFits(u);
    hide Inv, Fits, InTransit;
    assert Turn(u) == Turn(l);
    assert ([Turn(l)] + rest)[1..] == rest;
    if l.usb.Nothing? {
      assert u == l;
    } else {
      var all := [UsbCompletes, Turn(l)] + rest;
      assert all[0] == UsbCompletes && all[1..] == [Turn(l)] + rest;
      assert Next(sha, l, UsbCompletes) == u;
    }
  }

  lemma {:induction false} CompletesFrom(sha: Sha, l: Loop) returns (actions: seq<Action>)
    requires Going(sha, l) && (l.stream.phase < 4 || !l.started)
    ensures AllSmooth(actions) && HarmlessRun(sha, l, actions) && Completes(l, Run(sha, l, actions))
    decreases Distance(l)
  {
    hide *;
    RoundCloser(sha, l);
    var m := Round(sha, l);
    if Completes(l, m) {
      actions := [];
      NothingRun(sha, m);
    } else {
      CloserFacts(sha, l, m);
      actions := CompletesFrom(sha, m);
      CompletesBefore(l, m, Run(sha, m, actions));
    }
    RoundThen(sha, l, actions);
    actions := Steps(l) + actions;
  }

  lemma NothingRun(sha: Sha, m: Loop)
    ensures HarmlessRun(sha, m, []) && Run(sha, m, []) == m && AllSmooth([])
  {
  }

  lemma CloserFacts(sha: Sha, l: Loop, m: Loop)
    requires Closer(sha, l, m)
    ensures Going(sha, m) && (m.stream.phase < 4 || !m.started) && (l.stream.phase < 4 || !l.started)
    ensures Distance(m) < Distance(l)
    ensures m.descriptor == l.descriptor && m.waveform == l.waveform && m.delivered == l.delivered
  {
  }

  lemma CompletesBefore(l: Loop, m: Loop, end: Loop)
    requires m.descriptor == l.descriptor && m.waveform == l.waveform && m.delivered == l.delivered && Completes(m, end)
    ensures Completes(l, end)
  {
  }

  /** From every state a harmless run can reach with a session and a capture waiting, started or
      not and in whatever step, the loop can complete exactly this capture's frame without another
      capture or command in between. */
  lemma FrameGoesOut(sha: Sha, l: Loop, before: seq<Action>) returns (actions: seq<Action>)
    requires Initial(l) && HarmlessRun(sha, l, before)
    requires var m := Run(sha, l, before); m.ready && m.pending
    ensures var m := Run(sha, l, before);
            AllSmooth(actions) && HarmlessRun(sha, m, actions) && Completes(m, Run(sha, m, actions))
  {
    hide *;
    InitialInv(sha, l);
    InitialMoves(l);
    RunKeeps(sha, l, before);
    RunGateMoves(sha, l, before);
    var m := Run(sha, l, before);
    StartsGoing(sha, m);
    actions := CompletesFrom(sha, m);
  }

  lemma InitialMoves(l: Loop)
    requires Initial(l)
    ensures GateMoves(l)
  {
  }

  lemma StartsGoing(sha: Sha, m: Loop)
    requires Inv(sha, m) && GateMoves(m) && m.ready && m.pending
    ensures Going(sha, m) && (m.stream.phase < 4 || !m.started)
  {
    OwnedFacts(sha, m);
  }

  // ---------------------------------------------------------------- with nothing to send

  /** A session with nothing to send. */
  predicate Unoccupied(sha: Sha, l: Loop) {
    Inv(sha, l) && GateMoves(l) && l.ready && !l.pending
  }

  /** The loop is about to look at its input. */
  predicate Looks(l: Loop) {
    l.place == Arbitrate && !l.gateBusy
  }

  /** What a round leaves alone then: the held capture, the finished frames and, unless the loop was
      to look at it, the waiting input. */
  predicate Undisturbed(l: Loop, m: Loop) {
    Current(m) == Current(l) && m.delivered == l.delivered && (!Looks(l) && l.dataPending ==> m.dataPending)
  }

  lemma UsbUnoccupied(sha: Sha, l: Loop)
    requires Unoccupied(sha, l)
    ensures var u := UsbCompleted(l);
            Unoccupied(sha, u) && !u.started && Fits(u.descriptor) && u.usb == Nothing && Turn(u) == Turn(l) &&
            (u.gateBusy ==> u.sendComplete) && Undisturbed(l, u) && u.place == l.place && u.gateBusy == l.gateBusy
  {
    UsbKeeps(sha, l);
    hide AllDelivered, Build, Sent, Left, Fits, InTransit, Gated;
  }

  function Following(p: Place): Place {
    match p
    case Session => Completion
    case Completion => Periodic
    case Periodic => Arbitrate
    case Arbitrate => Session
  }

  lemma CompletionUnoccupied(u: Loop)
    requires u.ready && !u.pending && !u.started && u.place == Completion && (u.gateBusy ==> u.sendComplete)
    ensures var m := CompletionStep(u);
            m.ready && !m.pending && m.place == Periodic && Undisturbed(u, m) && !m.gateBusy
  {
    hide OnCompleted, Fits;
  }

  lemma ArbitrateUnoccupied(sha: Sha, u: Loop)
    requires Fits(u.descriptor) && u.ready && !u.pending && !u.started && u.place == Arbitrate
    ensures var m := ArbitrateStep(sha, u, Turn(u));
            m.ready && !m.pending && m.place == Session && Undisturbed(u, m) && m.gateBusy == u.gateBusy
  {
    hide SendNext, Fits;
  }

  lemma TurnUnoccupied(sha: Sha, u: Loop)
    requires Fits(u.descriptor) && u.ready && !u.pending && !u.started && u.usb == Nothing && (u.gateBusy ==> u.sendComplete)
    ensures var m := Next(sha, u, Turn(u));
            m.ready && !m.pending && m.place == Following(u.place) && Undisturbed(u, m) &&
            (u.place == Completion ==> !m.gateBusy) && (u.place != Completion ==> m.gateBusy == u.gateBusy)
  {
    hide CompletionStep, ArbitrateStep, Fits;
    match u.place
    case Session =>
    case Completion => CompletionUnoccupied(u);
    case Periodic =>
    case Arbitrate => ArbitrateUnoccupied(sha, u);
  }

  lemma RoundUnoccupied(sha: Sha, l: Loop)
    requires Unoccupied(sha, l)
    ensures Fits(l.descriptor)
    ensures var m := Round(sha, l);
            Unoccupied(sha, m) && m.place == Following(l.place) && Undisturbed(l, m) &&
            (l.place == Completion ==> !m.gateBusy) && (l.place != Completion ==> m.gateBusy == l.gateBusy)
  {
    var u := UsbCompleted(l);
    OwnedFacts(sha, l);
    UsbUnoccupied(sha, l);
    TurnFits(u);
    TurnUnoccupied(sha, u);
    StepKeeps(sha, u, Turn(u));
    StepGateMoves(sha, u, Turn(u));
    hide Inv, Fits, Next, GateMoves, Turn, InTransit;
  }

  lemma RoundThenUnoccupied(sha: Sha, l: Loop, rest: seq<Action>)
    requires Unoccupied(sha, l) && Fits(l.descriptor) && HarmlessRun(sha, Round(sha, l), rest)
    ensures HarmlessRun(sha, l, Steps(l) + rest) && Run(sha, l, Steps(l) + rest) == Run(sha, Round(sha, l), rest)
    ensures AllSmooth(Steps(l)) && |Steps(l)| <= 2
  {
    var u := UsbCompleted(l);
    UsbUnoccupied(sha, l);
    OwnedFacts(sha, l);
    TurnFits(u);
    hide Inv, Fits, InTransit, GateMoves;
    assert ([Turn(l)] + rest)[1..] == rest;
    if l.usb.Nothing? {
      assert u == l;
    } else {
      var all := [UsbCompletes, Turn(l)] + rest;
      assert all[0] == UsbCompletes && all[1..] == [Turn(l)] + rest;
      assert Next(sha, l, UsbCompletes) == u;
    }
  }

  /** The way to the periodic step with the gate open. */
  function Way(l: Loop): nat {
    if l.gateBusy then 5 + Until(l.place, 1) else Until(l.place, 2)
  }

  /** The loop comes to its periodic step with the gate open and what waited still waiting. */
  lemma {:induction false} ReachPeriodic(sha: Sha, l: Loop) returns (actions: seq<Action>)
    requires Unoccupied(sha, l) && !Looks(l)
    ensures AllSmooth(actions) && HarmlessRun(sha, l, actions)
    ensures var m := Run(sha, l, actions);
            Unoccupied(sha, m) && m.place == Periodic && !m.gateBusy && Current(m) == Current(l) &&
            m.delivered == l.delivered && (l.dataPending ==> m.dataPending)
    decreases Way(l)
  {
    hide Unoccupied, HarmlessRun, Run, AllSmooth, Round, Steps;
    if l.place == Periodic && !l.gateBusy {
      actions := [];
      NothingRun(sha, l);
    } else {
      RoundUnoccupied(sha, l);
      actions := ReachPeriodic(sha, Round(sha, l));
      RoundThenUnoccupied(sha, l, actions);
      SmoothJoins(Steps(l), actions);
      actions := Steps(l) + actions;
    }
  }

  lemma SmoothJoins(a: seq<Action>, b: seq<Action>)
    requires AllSmooth(a) && AllSmooth(b)
    ensures AllSmooth(a + b)
  {
  }

  lemma {:induction false} RunJoins(sha: Sha, l: Loop, a: seq<Action>, b: seq<Action>)
    requires HarmlessRun(sha, l, a) && HarmlessRun(sha, Run(sha, l, a), b)
    ensures HarmlessRun(sha, l, a + b) && Run(sha, l, a + b) == Run(sha, Run(sha, l, a), b)
    decreases |a|
  {
    hide Next, Enabled, Harmless;
    if a == [] {
      assert a + b == b;
    } else {
      assert (a + b)[0] == a[0] && (a + b)[1..] == a[1..] + b;
      RunJoins(sha, Next(sha, l, a[0]), a[1..], b);
    }
  }

  lemma RunOne(sha: Sha, l: Loop, a: Action)
    requires Enabled(l, a) && Harmless(l, a)
    ensures HarmlessRun(sha, l, [a]) && Run(sha, l, [a]) == Next(sha, l, a)
  {
    hide Next, Enabled, Harmless;
    assert [a][1..] == [];
  }

  lemma ReachPeriodicAnyway(sha: Sha, l: Loop) returns (actions: seq<Action>)
    requires Unoccupied(sha, l)
    ensures AllSmooth(actions) && HarmlessRun(sha, l, actions)
    ensures var m := Run(sha, l, actions);
            Unoccupied(sha, m) && m.place == Periodic && !m.gateBusy && m.delivered == l.delivered
  {
    hide *;
    if Looks(l) {
      RoundUnoccupied(sha, l);
      AfterLooking(l, Round(sha, l));
      actions := ReachPeriodic(sha, Round(sha, l));
      RoundThenUnoccupied(sha, l, actions);
      SmoothJoins(Steps(l), actions);
      actions := Steps(l) + actions;
    } else {
      actions := ReachPeriodic(sha, l);
    }
  }

  lemma AfterLooking(l: Loop, m: Loop)
    requires Looks(l) && m.place == Following(l.place) && Undisturbed(l, m)
    ensures !Looks(m) && m.delivered == l.delivered
  {
  }

  /** The run of the loop from m, with what it did beside its own steps. */
  ghost predicate Through(sha: Sha, m: Loop, first: seq<Action>, a: Action, last: seq<Action>) {
    AllSmooth(first) && AllSmooth(last) && HarmlessRun(sha, m, first + [a] + last)
  }

  lemma ThroughJoins(sha: Sha, m: Loop, first: seq<Action>, a: Action, last: seq<Action>)
    requires AllSmooth(first) && AllSmooth(last) && HarmlessRun(sha, m, first)
    requires var k := Run(sha, m, first); Enabled(k, a) && Harmless(k, a) && HarmlessRun(sha, Next(sha, k, a), last)
    ensures Through(sha, m, first, a, last)
    ensures Run(sha, m, first + [a] + last) == Run(sha, Next(sha, Run(sha, m, first), a), last)
  {
    hide Run, HarmlessRun, Next, Enabled, Harmless, AllSmooth;
    var k := Run(sha, m, first);
    RunOne(sha, k, a);
    RunJoins(sha, m, first, [a]);
    RunJoins(sha, m, first + [a], last);
  }

  lemma CaptureStarts(sha: Sha, k: Loop, c: Change)
    requires Unoccupied(sha, k) && k.place == Periodic && ChangeFits(c) && c.pending
    ensures var a := RunPeriodic(Some(c));
            Enabled(k, a) && Harmless(k, a) &&
            var n := Next(sha, k, a);
            Going(sha, n) && !n.started && n.descriptor == c.descriptor && n.waveform == c.waveform &&
            n.delivered == k.delivered
  {
    var a := RunPeriodic(Some(c));
    OwnedFacts(sha, k);
    NotStarted(sha, k);
    assert Enabled(k, a) && Harmless(k, a);
    StepKeeps(sha, k, a);
    StepGateMoves(sha, k, a);
    hide Inv, Fits, GateMoves;
  }

  lemma NotStarted(sha: Sha, k: Loop)
    requires Inv(sha, k) && !k.pending
    ensures !k.started
  {
    hide AllDelivered, Build, Sent, Left, Fits;
  }

  lemma ReachableMoves(sha: Sha, l: Loop, before: seq<Action>)
    requires Initial(l) && HarmlessRun(sha, l, before)
    ensures Inv(sha, Run(sha, l, before)) && GateMoves(Run(sha, l, before))
  {
    hide *;
    InitialInv(sha, l);
    InitialMoves(l);
    RunKeeps(sha, l, before);
    RunGateMoves(sha, l, before);
  }

  /** From every reachable state with a session and nothing to send, a capture that falls due can be
      made at the loop's next periodic step, and its frame is then the next one completed. */
  lemma PeriodicGoesOut(sha: Sha, l: Loop, before: seq<Action>, c: Change) returns (first: seq<Action>, last: seq<Action>)
    requires Initial(l) && HarmlessRun(sha, l, before) && ChangeFits(c) && c.pending
    requires var m := Run(sha, l, before); m.ready && !m.pending
    ensures var m := Run(sha, l, before);
            Through(sha, m, first, RunPeriodic(Some(c)), last) &&
            var end := Run(sha, m, first + [RunPeriodic(Some(c))] + last);
            !end.pending && end.dataPending && |end.delivered| == |m.delivered| + 1 &&
            end.delivered[|m.delivered|].descriptor == c.descriptor && end.delivered[|m.delivered|].waveform == c.waveform
  {
    hide *;
    ReachableMoves(sha, l, before);
    var m := Run(sha, l, before);
    IsUnoccupied(sha, m);
    first := ReachPeriodicAnyway(sha, m);
    var k := Run(sha, m, first);
    CaptureStarts(sha, k, c);
    var n := Next(sha, k, RunPeriodic(Some(c)));
    last := CompletesFrom(sha, n);
    ThroughJoins(sha, m, first, RunPeriodic(Some(c)), last);
    CompletedIs(n, Run(sha, n, last));
  }

  lemma IsUnoccupied(sha: Sha, m: Loop)
    requires Inv(sha, m) && GateMoves(m) && m.ready && !m.pending
    ensures Unoccupied(sha, m)
  {
  }

  lemma CompletedIs(n: Loop, end: Loop)
    requires Completes(n, end)
    ensures !end.pending && end.dataPending && |end.delivered| == |n.delivered| + 1
    ensures end.delivered[|n.delivered|].descriptor == n.descriptor && end.delivered[|n.delivered|].waveform == n.waveform
  {
  }

  /** The waiting request is handled so, and the engine takes the response. */
  function Answer(l: Loop, h: Handled): Action {
    RunArbitrate(true, true, SendStarted, Current(l), Some(h), true)
  }

  lemma AnswerLeaves(sha: Sha, k: Loop, h: Handled)
    requires Unoccupied(sha, k) && Looks(k) && k.dataPending && ChangeFits(h.change) && ResponseFits(h.response)
    ensures Enabled(k, Answer(k, h)) && Harmless(k, Answer(k, h))
    ensures var n := Next(sha, k, Answer(k, h));
            Enabled(n, UsbCompletes) && Harmless(n, UsbCompletes) &&
            var end := Next(sha, n, UsbCompletes);
            Current(end) == h.change && end.out == k.out + h.response && end.delivered == k.delivered
  {
    OwnedFacts(sha, k);
    NotStarted(sha, k);
    hide Inv, Fits;
  }

  /** At the periodic step, with nothing due, the input is looked at next. */
  lemma PeriodicToLooking(sha: Sha, k: Loop)
    requires Unoccupied(sha, k) && k.place == Periodic && !k.gateBusy
    ensures Enabled(k, RunPeriodic(None)) && Harmless(k, RunPeriodic(None))
    ensures var n := Next(sha, k, RunPeriodic(None));
            Unoccupied(sha, n) && Looks(n) && n.dataPending == k.dataPending && n.delivered == k.delivered
  {
    var a := RunPeriodic(None);
    OwnedFacts(sha, k);
    assert Enabled(k, a) && Harmless(k, a);
    StepKeeps(sha, k, a);
    StepGateMoves(sha, k, a);
    hide Inv, Fits, GateMoves;
  }

  lemma ReachLooking(sha: Sha, m: Loop) returns (actions: seq<Action>)
    requires Unoccupied(sha, m) && m.dataPending
    ensures AllSmooth(actions) && HarmlessRun(sha, m, actions)
    ensures var k := Run(sha, m, actions); Unoccupied(sha, k) && Looks(k) && k.dataPending && k.delivered == m.delivered
  {
    hide *;
    if Looks(m) {
      actions := [];
      NothingRun(sha, m);
    } else {
      var way := ReachPeriodic(sha, m);
      var k := Run(sha, m, way);
      PeriodicToLooking(sha, k);
      var n := Next(sha, k, RunPeriodic(None));
      NothingRun(sha, n);
      ThroughJoins(sha, m, way, RunPeriodic(None), []);
      ThroughSmooth(sha, m, way);
      actions := way + [RunPeriodic(None)] + [];
    }
  }

  lemma ThroughSmooth(sha: Sha, m: Loop, way: seq<Action>)
    requires Through(sha, m, way, RunPeriodic(None), [])
    ensures AllSmooth(way + [RunPeriodic(None)] + []) && HarmlessRun(sha, m, way + [RunPeriodic(None)] + [])
  {
  }

  /** From every reachable state with a session, nothing to send and a request waiting, the loop can
      come to handle the request, and its whole response is the next thing to leave the device. */
  lemma RequestAnswered(sha: Sha, l: Loop, before: seq<Action>, h: Handled) returns (first: seq<Action>, k: Loop)
    requires Initial(l) && HarmlessRun(sha, l, before) && ChangeFits(h.change) && ResponseFits(h.response)
    requires var m := Run(sha, l, before); m.ready && !m.pending && m.dataPending
    ensures var m := Run(sha, l, before);
            HarmlessRun(sha, m, first) && k == Run(sha, m, first) &&
            Through(sha, m, first, Answer(k, h), [UsbCompletes]) &&
            var end := Run(sha, m, first + [Answer(k, h)] + [UsbCompletes]);
            Current(end) == h.change && end.out == k.out + h.response && end.delivered == m.delivered
  {
    hide *;
    ReachableMoves(sha, l, before);
    var m := Run(sha, l, before);
    IsUnoccupied(sha, m);
    first := ReachLooking(sha, m);
    k := Run(sha, m, first);
    AnswerLeaves(sha, k, h);
    var n := Next(sha, k, Answer(k, h));
    RunOne(sha, n, UsbCompletes);
    UsbIsSmooth();
    ThroughJoins(sha, m, first, Answer(k, h), [UsbCompletes]);
  }

  lemma UsbIsSmooth()
    ensures AllSmooth([UsbCompletes])
  {
  }

  /** A segment the engine cannot take at all ends the session: the frame is given up, neither completed
      nor tried again, and nothing more of it leaves. */
  lemma FatalGivesUp(sha: Sha, l: Loop, a: Action)
    requires Inv(sha, l) && Enabled(l, a) && a.RunArbitrate? && a.first && a.result.SendFatal?
    requires l.ready && !l.gateBusy && l.pending
    ensures var m := Next(sha, l, a);
            !m.pending && !m.started && m.usb == Nothing && m.descriptor == a.ended.descriptor &&
            m.delivered == l.delivered && m.out == l.out
  {
    OwnedFacts(sha, l);
    BuildPhase(sha, l.descriptor, l.waveform);
    hide AllDelivered, Build, Sent, Fits;
  }

  // ---------------------------------------------------------------- a lost session

  predicate NoSessionStep(actions: seq<Action>) {
    forall a :: a in actions ==> !a.RunSession?
  }

  lemma {:induction false} SessionSeenStays(sha: Sha, m: Loop, actions: seq<Action>)
    requires HarmlessRun(sha, m, actions) && NoSessionStep(actions)
    ensures Run(sha, m, actions).previousReady == m.previousReady
    decreases |actions|
  {
    if actions != [] {
      assert actions[0] in actions && forall a :: a in actions[1..] ==> a in actions;
      SeenStays(sha, m, actions[0]);
      hide Next, Enabled, Harmless;
      SessionSeenStays(sha, Next(sha, m, actions[0]), actions[1..]);
    }
  }

  lemma SeenStays(sha: Sha, m: Loop, a: Action)
    requires Enabled(m, a) && !a.RunSession?
    ensures Next(sha, m, a).previousReady == m.previousReady
  {
    hide ArbitrateStep, InTransit, Fits;
    if a.RunArbitrate? {
      SendingSees(sha, m, a.result, a.ended);
      InputSees(m, a);
      ArbitrateSees(sha, m, a);
    }
  }

  lemma SendingSees(sha: Sha, m: Loop, result: Started, ended: Change)
    requires Fits(m.descriptor)
    ensures SendNext(sha, m, result, ended).previousReady == m.previousReady
  {
    if m.started {
      hide Build, Fits, OnStart;
    } else {
      hide Build, Fits;
      FirstSendingSees(sha, m, result, ended);
    }
  }

  lemma FirstSendingSees(sha: Sha, m: Loop, result: Started, ended: Change)
    requires Fits(m.descriptor) && !m.started
    ensures SendNext(sha, m, result, ended).previousReady == m.previousReady
  {
    hide Build, Fits, OnStart;
    match result
    case SendStarted =>
    case SendBusy =>
    case SendFatal =>
  }

  lemma InputSees(m: Loop, a: Action)
    requires a.RunArbitrate?
    ensures ProcessInput(m, a.handled, a.responseStarted, a.ended).previousReady == m.previousReady
  {
  }

  lemma ArbitrateSees(sha: Sha, m: Loop, a: Action)
    requires a.RunArbitrate? && Fits(m.descriptor)
    requires SendNext(sha, m, a.result, a.ended).previousReady == m.previousReady
    requires ProcessInput(m, a.handled, a.responseStarted, a.ended).previousReady == m.previousReady
    ensures ArbitrateStep(sha, m, a).previousReady == m.previousReady
  {
    hide SendNext, ProcessInput, Fits;
  }

  /** A session that one session step saw and the next one misses, whatever happened between them: the
      transmission is stopped and the session ended, so nothing is pending, under way or completed,
      and the engine rests. */
  lemma SessionLossStops(sha: Sha, l: Loop, seen: Action, actions: seq<Action>, lost: Action)
    requires Inv(sha, l) && seen.RunSession? && Enabled(l, seen) && l.ready && lost.RunSession?
    requires HarmlessRun(sha, Next(sha, l, seen), actions) && NoSessionStep(actions)
    requires var k := Run(sha, Next(sha, l, seen), actions); Enabled(k, lost) && !k.ready
    ensures var k := Run(sha, Next(sha, l, seen), actions);
            var n := Next(sha, k, lost);
            !n.pending && !n.started && !n.gateBusy && n.usb == Nothing && n.delivered == k.delivered &&
            n.descriptor == lost.ended.descriptor
  {
    hide *;
    SessionSeen(sha, l, seen);
    var m := Next(sha, l, seen);
    SessionSeenStays(sha, m, actions);
    NoneHarms(l, seen);
    StepKeeps(sha, l, seen);
    RunKeeps(sha, m, actions);
    LossStops(sha, Run(sha, m, actions), lost);
  }

  lemma SessionSeen(sha: Sha, l: Loop, seen: Action)
    requires seen.RunSession? && Enabled(l, seen) && l.ready
    ensures Next(sha, l, seen).previousReady
  {
    hide InTransit, Fits;
  }

  lemma NoneHarms(l: Loop, a: Action)
    requires a.RunSession?
    ensures Harmless(l, a)
  {
  }

  lemma LossStops(sha: Sha, k: Loop, lost: Action)
    requires Inv(sha, k) && lost.RunSession? && Enabled(k, lost) && !k.ready && k.previousReady
    ensures var n := Next(sha, k, lost);
            !n.pending && !n.started && !n.gateBusy && n.usb == Nothing && n.delivered == k.delivered &&
            n.descriptor == lost.ended.descriptor
  {
    hide Owned, AllDelivered, Fits, InTransit;
  }
}
