/** HELLO sets the replay going, and the two processes can always bring it to its end: the spool
    drains, forwarding starts, and the commands held back reach the device in order. */
module ReplayProgress {
  import opened Bytes
  import opened Delivery
  import opened Spool
  import opened CoreStore
  import opened Accounting
  import opened DeliverySystem
  import opened NeverRefused
  import EarlyCapture
  import ExactlyOnce
  import Forwarding
  import Handoff
  import Lockstep

  /** A step that bridge or core takes by itself: no new connection, no crash, nothing from the device
      and nothing from the application. */
  predicate Quiet(a: Action) {
    a.QuerySpool? || a.NextReplay? || a.SendDelivery? || a.ResumeSerial? || a.EnableForwarding? || a.FlushOne? ||
    a.ReaderReceives? || a.ReaderResponds? || a.ReaderSignals? || a.ReaderWrites? || a.ClientReceives? ||
    a.CommitReplay? || a.ClientConfirms?
  }

  predicate AllQuiet(actions: seq<Action>) {
    forall a :: a in actions ==> Quiet(a)
  }

  /** Such steps lead from s to t. */
  ghost predicate Reaches(w: World, s: System, t: System) {
    exists actions :: AllQuiet(actions) && Run(w, s, actions) == Some(t)
  }

  lemma ReachesItself(w: World, s: System)
    ensures Reaches(w, s, s)
  {
    assert AllQuiet([]) && Run(w, s, []) == Some(s);
  }

  lemma ReachesNext(w: World, s: System, a: Action, t: System)
    requires Quiet(a) && Next(w, s, a) == Some(t)
    ensures Reaches(w, s, t)
  {
    hide Next, Run, Quiet;
    EarlyCapture.RunOne(w, s, a);
    assert AllQuiet([a]);
  }

  lemma ReachesOn(w: World, s: System, t: System, u: System)
    requires Reaches(w, s, t) && Reaches(w, t, u)
    ensures Reaches(w, s, u)
  {
    hide Run, Quiet;
    var a :| AllQuiet(a) && Run(w, s, a) == Some(t);
    var b :| AllQuiet(b) && Run(w, t, b) == Some(u);
    EarlyCapture.RunConcat(w, s, a, b);
    assert AllQuiet(a + b);
  }

  lemma ReachesSane(w: World, s: System, t: System)
    requires Sane(w, s) && Reaches(w, s, t)
    ensures Sane(w, t)
  {
    hide Run, Sane, AllQuiet;
    var a :| AllQuiet(a) && Run(w, s, a) == Some(t);
    RunSane(w, s, a);
  }

  // ---------------------------------------------------------------- one row

  /** Both ends up and nothing in flight. */
  ghost predicate Calm(w: World, s: System) {
    Sane(w, s) && s.bridge.BridgeOn? && s.client.Ready? && s.toCore == [] && s.toBridge == [] && s.bridge.reader.Idle?
  }

  /** What replaying leaves alone. */
  predicate Aside(s: System, t: System) {
    t.bridge.BridgeOn? && s.bridge.BridgeOn? && t.bridge.connection == s.bridge.connection &&
    t.bridge.deferred == s.bridge.deferred && t.bridge.forwarding == s.bridge.forwarding && t.written == s.written &&
    t.core.contexts == s.core.contexts
  }

  lemma SendStage(w: World, s: System) returns (t: System)
    requires Calm(w, s) && s.bridge.serial.Replaying? && s.bridge.serial.rest != []
    requires Deliverable(w.codec, ParcelOf(s.bridge.connection, s.bridge.serial.rest[0]))
    ensures Reaches(w, s, t) && Sane(w, t) && Aside(s, t) && t.spool == s.spool && t.core == s.core
    ensures var row, rest := s.bridge.serial.rest[0], s.bridge.serial.rest[1..];
            var sequence := row.record % 0x1_0000_0000;
            t.client == Accepted(ParcelOf(s.bridge.connection, row), sequence) && t.toCore == [] && t.toBridge == [] &&
            t.bridge.reader.Idle? && t.bridge.serial == Waiting(row, sequence, ToReplay(rest))
  {
    hide Sane, Deliverable, Reaches;
    var s1 := SerialNext(s).value;
    var s2 := SerialSend(w, s1).value;
    t := ClientReceive(w, s2).value;
    ReachesNext(w, s, NextReplay, s1);
    ReachesNext(w, s1, SendDelivery, s2);
    ReachesNext(w, s2, ClientReceives, t);
    ReachesOn(w, s, s1, s2);
    ReachesOn(w, s, s2, t);
    ReachesSane(w, s, t);
  }

  /** The replay commits, and the slot holds the receipt. */
  lemma ReplayCommits(w: World, s: System)
    requires Sane(w, s) && s.client.Accepted? && w.codec.identity(s.client.parcel.frame).Some?
    requires var id := w.codec.identity(s.client.parcel.frame).value; (id.device, id.boot) in s.core.contexts
    ensures var t := Next(w, s, CommitReplay);
            t.Some? && t.value.client.Committed? && t.value.client.parcel == s.client.parcel &&
            t.value.client.sequence == s.client.sequence &&
            t.value == s.(core := t.value.core, log := t.value.log, client := t.value.client)
  {
    ReplayHere(w, s);
    hide Sane, CommitReplayed, FindTombstone, LogAfter;
  }

  lemma CommitStage(w: World, s: System) returns (t: System)
    requires Sane(w, s) && s.client.Accepted? && s.bridge.BridgeOn? && s.toBridge == []
    requires var id := w.codec.identity(s.client.parcel.frame);
             id.Some? ==> (id.value.device, id.value.boot) in s.core.contexts
    ensures Reaches(w, s, t) && Sane(w, t) && Aside(s, t) && t.spool == s.spool
    ensures t.client.Awaiting? && t.client.parcel == s.client.parcel && t.client.sequence == s.client.sequence
    ensures t == s.(core := t.core, log := t.log, client := t.client,
                    toBridge := [CommitRequest(t.client.receipt, t.client.sequence)])
  {
    hide Sane, Welcome, Reaches, Next;
    DeliveryWelcome(w, s);
    ReplayCommits(w, s);
    ContextsStay(w, s, CommitReplay);
    var s1 := Next(w, s, CommitReplay).value;
    t := ClientConfirm(s1).value;
    ReachesNext(w, s, CommitReplay, s1);
    ConfirmIsNext(w, s1);
    ReachesNext(w, s1, ClientConfirms, t);
    ReachesOn(w, s, s1, t);
    ReachesSane(w, s, t);
  }

  lemma ConfirmIsNext(w: World, s: System)
    ensures Next(w, s, ClientConfirms) == ClientConfirm(s)
  {
  }

  lemma ContextsStay(w: World, s: System, a: Action)
    requires Sane(w, s) && Next(w, s, a).Some? && !a.SetContexts?
    ensures Next(w, s, a).value.core.contexts == s.core.contexts
  {
    hide Lockstep.Inv, ExactlyOnce.Sound, Records, ContextsFit, Next;
    StepContexts(w, s, a);
  }

  lemma ReceiptTaken(w: World, s: System)
    requires Sane(w, s) && s.bridge.BridgeOn? && s.bridge.reader.Idle? && s.bridge.serial.Waiting?
    requires s.bridge.serial.resume.ToReplay? && |s.toBridge| == 1 && s.toBridge[0].CommitRequest?
    ensures s.spool.pending != []
    ensures var r := Mark(s.spool, s.toBridge[0].receipt, w.limit); r.MarkedAs? && r.rows.pending == s.spool.pending[1..]
  {
    hide Handoff.Inv, ExactlyOnce.Sound, Records, ContextsFit, Mark, Lockstep.Flow, Lockstep.RowsHeld;
    Lockstep.ReceiptAccepted(w, s);
    assert s.spool.pending != [] ==> s.spool.pending[..0] + s.spool.pending[1..] == s.spool.pending[1..];
  }

  /** The receipt takes the head of the spool. */
  lemma MarkStage(w: World, s: System) returns (t: System)
    requires Sane(w, s) && s.bridge.BridgeOn? && s.bridge.reader.Idle? && s.bridge.serial.Waiting?
    requires s.bridge.serial.resume.ToReplay? && |s.toBridge| == 1 && s.toBridge[0].CommitRequest?
    ensures Reaches(w, s, t) && Sane(w, t) && Aside(s, t) && s.spool.pending != []
    ensures t.spool.pending == s.spool.pending[1..] && t.bridge.BridgeOn? && t.bridge.reader.Marked?
    ensures t == s.(spool := t.spool, toBridge := [], bridge := s.bridge.(reader := t.bridge.reader))
  {
    hide Sane, Mark, Reaches;
    ReceiptTaken(w, s);
    t := ReaderReceive(w, s).value;
    ReachesNext(w, s, ReaderReceives, t);
    ReachesSane(w, s, t);
  }

  lemma MarkedFacts(w: World, s: System)
    requires Sane(w, s) && s.bridge.BridgeOn? && s.bridge.serial.Waiting? && s.bridge.reader.Marked?
    ensures var record := s.bridge.serial.row.record;
            s.bridge.reader.receipt.record == record && s.bridge.events.Keys == {record}
    ensures s.toBridge == []
  {
    hide Handoff.Inv, ExactlyOnce.Sound, Records, ContextsFit, Lockstep.RowsHeld, Lockstep.StreamAlternates;
  }

  lemma ResponseIsRead(w: World, s: System)
    requires Sane(w, s) && s.client.Awaiting? && s.toCore != []
    ensures ResponseMatches(s.toCore[0], s.client.parcel, s.client.sequence)
  {
    hide Handoff.Inv, ExactlyOnce.Sound, Records, ContextsFit, Lockstep.RowsHeld, Lockstep.StreamAlternates;
  }

  /** The response is sent and the event set. */
  lemma RespondStage(w: World, s: System) returns (t: System)
    requires Sane(w, s) && s.bridge.BridgeOn? && s.bridge.serial.Waiting? && s.bridge.reader.Marked?
    requires s.client.Awaiting? && s.toCore == []
    ensures Reaches(w, s, t) && Sane(w, t) && Aside(s, t) && t.spool == s.spool && t.toBridge == [] && t.client == s.client
    ensures |t.toCore| == 1 && t.bridge.reader.Idle? && t.bridge.serial == s.bridge.serial
    ensures t.bridge.events == map[s.bridge.serial.row.record := true] && t.log == s.log
  {
    MarkedFacts(w, s);
    hide Sane, Reaches;
    var s1 := ReaderRespond(s).value;
    t := ReaderSignal(s1).value;
    ReachesNext(w, s, ReaderResponds, s1);
    ReachesNext(w, s1, ReaderSignals, t);
    ReachesOn(w, s, s1, t);
    ReachesSane(w, s, t);
  }

  /** The response is read, and the serial loop goes on. */
  lemma ResumeStage(w: World, s: System) returns (t: System)
    requires Sane(w, s) && s.bridge.BridgeOn? && s.bridge.serial.Waiting? && s.bridge.serial.resume.ToReplay?
    requires s.client.Awaiting? && |s.toCore| == 1 && s.toBridge == [] && s.bridge.reader.Idle?
    requires s.bridge.events == map[s.bridge.serial.row.record := true]
    ensures Reaches(w, s, t) && Calm(w, t) && Aside(s, t) && t.spool == s.spool
    ensures t.bridge.serial == Replaying(s.bridge.serial.resume.rest)
  {
    ResponseIsRead(w, s);
    hide Sane, Reaches, ResponseMatches;
    var s1 := ClientReceive(w, s).value;
    t := SerialResume(s1).value;
    ReachesNext(w, s, ClientReceives, s1);
    ReachesNext(w, s1, ResumeSerial, t);
    ReachesOn(w, s, s1, t);
    ReachesSane(w, s, t);
  }

  lemma AnswerStage(w: World, s: System) returns (t: System)
    requires Sane(w, s) && s.bridge.BridgeOn? && s.bridge.serial.Waiting? && s.bridge.serial.resume.ToReplay?
    requires s.bridge.reader.Marked? && s.client.Awaiting? && s.toCore == []
    ensures Reaches(w, s, t) && Calm(w, t) && Aside(s, t) && t.spool == s.spool
    ensures t.bridge.serial == Replaying(s.bridge.serial.resume.rest)
  {
    hide Sane, Reaches;
    var m := RespondStage(w, s);
    t := ResumeStage(w, m);
    ReachesOn(w, s, m, t);
  }

  lemma HeldInReplay(w: World, s: System)
    requires Sane(w, s) && s.bridge.BridgeOn? && s.bridge.serial.Replaying?
    ensures s.bridge.serial.rest <= s.spool.pending
    ensures forall p :: p in s.spool.pending ==> w.codec.identity(p.frame) == Some(p.identity)
  {
    hide Lockstep.Flow, Handoff.FlightKnown, ExactlyOnce.Sound, Records, ContextsFit;
  }

  /** Every pending row can be delivered and has a policy. */
  predicate Prepared(w: World, s: System)
    requires s.bridge.BridgeOn?
  {
    forall p :: p in s.spool.pending ==>
      Deliverable(w.codec, ParcelOf(s.bridge.connection, p)) &&
      (p.identity.device, p.identity.boot) in s.core.contexts
  }

  /** The oldest row is delivered, resolved and acknowledged. */
  lemma RowDelivered(w: World, s: System) returns (t: System)
    requires Calm(w, s) && Prepared(w, s) && s.bridge.serial.Replaying? && s.bridge.serial.rest != []
    ensures Reaches(w, s, t) && Calm(w, t) && Aside(s, t)
    ensures s.spool.pending != [] && t.spool.pending == s.spool.pending[1..]
    ensures t.bridge.serial == Replaying(s.bridge.serial.rest[1..])
  {
    HeldInReplay(w, s);
    hide Sane, Reaches, Deliverable;
    var row := s.bridge.serial.rest[0];
    assert row == s.spool.pending[0] && row in s.spool.pending;
    var s1 := SendStage(w, s);
    var s2 := CommitStage(w, s1);
    var s3 := MarkStage(w, s2);
    t := AnswerStage(w, s3);
    ReachesOn(w, s, s1, s2);
    ReachesOn(w, s, s2, s3);
    ReachesOn(w, s, s3, t);
  }

  // ---------------------------------------------------------------- the whole spool

  lemma PreparedRest(w: World, s: System, t: System)
    requires s.bridge.BridgeOn? && Prepared(w, s) && Aside(s, t) && s.spool.pending != []
    requires t.spool.pending == s.spool.pending[1..]
    ensures Prepared(w, t)
  {
    hide Deliverable;
    forall p | p in t.spool.pending
      ensures Deliverable(w.codec, ParcelOf(t.bridge.connection, p)) &&
              (p.identity.device, p.identity.boot) in t.core.contexts
    {
      assert p in s.spool.pending;
    }
  }

  function Rank(serial: SerialLoop): nat {
    if serial.Querying? then 1 else if serial.Replaying? && serial.rest == [] then 2 else 0
  }

  lemma QueryStage(w: World, s: System) returns (t: System)
    requires Calm(w, s) && (s.bridge.serial.Querying? || s.bridge.serial == Replaying([]))
    ensures Reaches(w, s, t) && Calm(w, t) && Aside(s, t) && t.spool == s.spool
    ensures s.bridge.serial.Replaying? ==> t.bridge.serial == Querying
    ensures s.bridge.serial.Querying? ==>
              if s.spool.pending == [] then t.bridge.serial == Enabling
              else t.bridge.serial.Replaying? && t.bridge.serial.rest != []
  {
    hide Sane, Reaches;
    if s.bridge.serial.Querying? {
      t := SerialQuery(s).value;
      ReachesNext(w, s, QuerySpool, t);
    } else {
      t := SerialNext(s).value;
      ReachesNext(w, s, NextReplay, t);
    }
    ReachesSane(w, s, t);
  }

  lemma {:induction false} SpoolDrains(w: World, s: System) returns (t: System)
    requires Calm(w, s) && Prepared(w, s) && (s.bridge.serial.Querying? || s.bridge.serial.Replaying?)
    ensures Reaches(w, s, t) && Calm(w, t) && Aside(s, t) && t.bridge.serial == Enabling && t.spool.pending == []
    decreases |s.spool.pending|, Rank(s.bridge.serial)
  {
    hide Sane, Reaches, Deliverable;
    if s.bridge.serial.Replaying? && s.bridge.serial.rest != [] {
      var m := RowDelivered(w, s);
      PreparedRest(w, s, m);
      t := SpoolDrains(w, m);
      ReachesOn(w, s, m, t);
    } else {
      var m := QueryStage(w, s);
      if m.bridge.serial == Enabling {
        t := m;
      } else {
        t := SpoolDrains(w, m);
        ReachesOn(w, s, m, t);
      }
    }
  }

  // ---------------------------------------------------------------- before and after

  /** The core's client reads what is left on the stream. */
  lemma {:induction false} ClientSettles(w: World, s: System) returns (t: System)
    requires Sane(w, s) && s.bridge.BridgeOn? && !s.bridge.serial.Waiting? && !s.client.ClientOff?
    ensures Reaches(w, s, t) && Sane(w, t) && t == s.(client := Ready, toCore := [])
    decreases |s.toCore|
  {
    LeftOver(w, s);
    if s.toCore == [] {
      t := s;
      ReachesItself(w, s);
    } else {
      hide Sane, Reaches, ResponseMatches;
      var m := ClientReceive(w, s).value;
      assert m == s.(client := Ready, toCore := s.toCore[1..]);
      ReachesNext(w, s, ClientReceives, m);
      ReachesSane(w, s, m);
      t := ClientSettles(w, m);
      ReachesOn(w, s, m, t);
    }
  }

  lemma LeftOver(w: World, s: System)
    requires Sane(w, s) && s.bridge.BridgeOn? && !s.bridge.serial.Waiting? && !s.client.ClientOff?
    ensures s.toCore == [] ==> s.client.Ready?
    ensures s.toCore != [] ==>
              (s.client.Ready? && s.toCore[0].Reply?) ||
              (s.client.Awaiting? && ResponseMatches(s.toCore[0], s.client.parcel, s.client.sequence))
  {
    hide ResponseMatches, Handoff.Inv, ExactlyOnce.Sound, Records, ContextsFit, Lockstep.RowsHeld, Lockstep.StreamAlternates;
  }

  lemma ReaderFree(w: World, s: System)
    requires Sane(w, s) && s.bridge.BridgeOn? && !s.bridge.serial.Waiting?
    ensures s.bridge.reader.Idle? || s.bridge.reader.Writing?
    ensures s.toBridge != [] ==> s.toBridge[0].Forward?
  {
    hide Handoff.Inv, ExactlyOnce.Sound, Records, ContextsFit, Lockstep.RowsHeld, Lockstep.StreamAlternates, Lockstep.Paired;
  }

  /** Commands that would have to be held back. */
  function Holds(b: Bridge, toBridge: seq<ToBridge>): nat
    requires b.BridgeOn?
  {
    if b.forwarding then 0 else |b.deferred| + |Forwarding.NonHello(Forwarding.Commands(toBridge))|
  }

  lemma HoldsNext(b: Bridge, toBridge: seq<ToBridge>)
    requires b.BridgeOn? && !b.forwarding && toBridge != [] && toBridge[0].Forward?
    ensures Holds(b, toBridge) == Holds(b, toBridge[1..]) + if toBridge[0].command.hello then 0 else 1
  {
    var c := toBridge[0].command;
    var rest := Forwarding.Commands(toBridge[1..]);
    assert ([c] + rest)[1..] == rest;
  }

  /** The reader takes in the commands already on the stream: those that may pass are written, the
      others are kept for later, and there is room for them. */
  lemma {:induction false} ReaderSettles(w: World, s: System) returns (t: System)
    requires Sane(w, s) && s.bridge.BridgeOn? && !s.bridge.serial.Waiting? && !s.bridge.serial.Flushing?
    requires Holds(s.bridge, s.toBridge) <= MAX_DEFERRED
    ensures Reaches(w, s, t) && Sane(w, t) && t.bridge.BridgeOn?
    ensures t == s.(toBridge := [], written := t.written,
                    bridge := s.bridge.(reader := Idle, deferred := t.bridge.deferred))
    ensures s.bridge.forwarding ==> t.bridge.deferred == s.bridge.deferred
    decreases |s.toBridge|, if s.bridge.reader.Writing? then 1 else 0
  {
    ReaderFree(w, s);
    hide Sane, Reaches, Mark;
    if s.bridge.reader.Writing? {
      var m := ReaderWrite(s).value;
      ReachesNext(w, s, ReaderWrites, m);
      ReachesSane(w, s, m);
      t := ReaderSettles(w, m);
      ReachesOn(w, s, m, t);
    } else if s.toBridge == [] {
      t := s;
      ReachesItself(w, s);
    } else {
      if !s.bridge.forwarding {
        HoldsNext(s.bridge, s.toBridge);
      }
      var m := ReaderReceive(w, s).value;
      assert m.bridge.BridgeOn?;
      ReachesNext(w, s, ReaderReceives, m);
      ReachesSane(w, s, m);
      if m.bridge.reader.Writing? {
        var n := ReaderWrite(m).value;
        ReachesNext(w, m, ReaderWrites, n);
        ReachesOn(w, s, m, n);
        ReachesSane(w, s, n);
        t := ReaderSettles(w, n);
        ReachesOn(w, s, n, t);
      } else {
        t := ReaderSettles(w, m);
        ReachesOn(w, s, m, t);
      }
    }
  }

  lemma {:induction false} FlushEnds(w: World, s: System) returns (t: System)
    requires Sane(w, s) && s.bridge.BridgeOn? && s.bridge.serial.Flushing?
    ensures Reaches(w, s, t) && Sane(w, t)
    ensures t == s.(written := t.written, bridge := s.bridge.(serial := Reading))
    decreases |s.bridge.serial.queue|
  {
    hide Sane, Reaches;
    var m := SerialFlush(s).value;
    ReachesNext(w, s, FlushOne, m);
    ReachesSane(w, s, m);
    if s.bridge.serial.queue == [] {
      t := m;
    } else {
      t := FlushEnds(w, m);
      ReachesOn(w, s, m, t);
    }
  }

  lemma ForwardingStage(w: World, s: System) returns (t: System)
    requires Sane(w, s) && s.bridge.BridgeOn? && s.bridge.serial == Enabling
    ensures Reaches(w, s, t) && Sane(w, t) && t.spool == s.spool && t.client == s.client
    ensures t.toCore == s.toCore && t.toBridge == s.toBridge && t.bridge.BridgeOn? && t.bridge.reader == s.bridge.reader
    ensures t.bridge.serial == Reading && t.bridge.forwarding && t.bridge.deferred == []
  {
    hide Sane, Reaches;
    var m := SerialEnable(s).value;
    ReachesNext(w, s, EnableForwarding, m);
    ReachesSane(w, s, m);
    t := FlushEnds(w, m);
    ReachesOn(w, s, m, t);
  }

  /** From HELLO to the end of the replay. */
  lemma ReplayEnds(w: World, s: System) returns (t: System)
    requires Sane(w, s) && s.bridge.BridgeOn? && s.bridge.serial.Querying? && !s.client.ClientOff? && Prepared(w, s)
    requires Holds(s.bridge, s.toBridge) <= MAX_DEFERRED
    ensures Reaches(w, s, t) && Calm(w, t) && t.spool.pending == []
    ensures t.bridge.serial == Reading && t.bridge.forwarding && t.bridge.deferred == []
  {
    hide Sane, Reaches, Deliverable, Holds;
    var s1 := ClientSettles(w, s);
    var s2 := ReaderSettles(w, s1);
    var s3 := SpoolDrains(w, s2);
    t := ForwardingStage(w, s3);
    ReachesOn(w, s, s1, s2);
    ReachesOn(w, s, s2, s3);
    ReachesOn(w, s, s3, t);
  }

  /** With nothing to replay, forwarding comes first, and then any number of commands may pass. */
  lemma NothingToReplay(w: World, s: System) returns (t: System)
    requires Sane(w, s) && s.bridge.BridgeOn? && s.bridge.serial.Querying? && !s.client.ClientOff? && s.spool.pending == []
    ensures Reaches(w, s, t) && Calm(w, t) && t.spool.pending == []
    ensures t.bridge.serial == Reading && t.bridge.forwarding && t.bridge.deferred == []
  {
    hide Sane, Reaches;
    var s1 := SerialQuery(s).value;
    ReachesNext(w, s, QuerySpool, s1);
    ReachesSane(w, s, s1);
    var s2 := ForwardingStage(w, s1);
    var s3 := ClientSettles(w, s2);
    t := ReaderSettles(w, s3);
    ReachesOn(w, s, s1, s2);
    ReachesOn(w, s, s2, s3);
    ReachesOn(w, s, s3, t);
  }

  // ---------------------------------------------------------------- from every reachable state

  lemma QuietSends(w: World, s: System, a: Action)
    requires Quiet(a) && Next(w, s, a).Some?
    ensures Next(w, s, a).value.sent == s.sent
  {
    hide CommitReplayed, FindTombstone, LogAfter, Deliverable, Mark;
  }

  lemma {:induction false} QuietRunSends(w: World, s: System, actions: seq<Action>)
    requires AllQuiet(actions) && Run(w, s, actions).Some?
    ensures Run(w, s, actions).value.sent == s.sent
    decreases |actions|
  {
    hide Next, Quiet;
    if actions != [] {
      assert actions[0] in actions && forall a :: a in actions[1..] ==> a in actions;
      QuietSends(w, s, actions[0]);
      QuietRunSends(w, Next(w, s, actions[0]).value, actions[1..]);
    }
  }

  lemma NothingWaits(w: World, t: System)
    requires Calm(w, t) && t.bridge.serial == Reading && t.bridge.deferred == [] && Forwarding.InOrder(t)
    ensures Forwarding.NonHello(t.written) == Forwarding.NonHello(t.sent)
  {
    hide Sane;
    assert Forwarding.Filtered(t.bridge, t.toBridge) == [];
    assert Forwarding.NonHello(t.written) + [] == Forwarding.NonHello(t.written);
  }

  lemma AllResolved(w: World, t: System)
    requires Sane(w, t) && t.spool.pending == []
    ensures forall id :: id in t.stored ==> Logged(t.log, id)
  {
    hide Lockstep.Flow, Lockstep.RowsHeld, Handoff.FlightKnown, ExactlyOnce.Sound, Records, ContextsFit;
    forall id | id in t.stored ensures Logged(t.log, id) {
      assert Handoff.PendingOrLogged(t.spool.pending, t.log, id);
    }
  }

  lemma HelloReplied(w: World, s: System)
    requires Sane(w, s) && s.bridge.BridgeOn? && s.bridge.serial.Reading?
    ensures var m := Next(w, s, DeviceReplies(true));
            m.Some? && Sane(w, m.value) && m.value.bridge == s.bridge.(serial := Querying) && m.value.client == s.client &&
            m.value.spool == s.spool && m.value.core == s.core && m.value.toBridge == s.toBridge && m.value.sent == s.sent
  {
    assert Next(w, s, DeviceReplies(true)) == SerialReply(s, true);
    hide Sane, Next;
    StepSane(w, s, DeviceReplies(true));
  }

  // ---------------------------------------------------------------- and when they cannot

  /** The bridge is down, or still owes the core a replay and more commands wait than it may hold. */
  ghost predicate Overfull(s: System, pending: seq<Pending>) {
    s.bridge.BridgeOn? ==>
      s.spool.pending == pending != [] && !s.bridge.forwarding && !s.bridge.serial.Enabling? &&
      |s.bridge.deferred| <= MAX_DEFERRED < Holds(s.bridge, s.toBridge)
  }

  lemma RequestIsLast(w: World, s: System)
    requires Sane(w, s) && s.bridge.BridgeOn? && s.toBridge != []
    ensures s.toBridge[0].CommitRequest? ==> |s.toBridge| == 1
  {
    hide Handoff.Inv, ExactlyOnce.Sound, Records, ContextsFit, Lockstep.RowsHeld, Lockstep.StreamAlternates, Lockstep.Paired,
      Lockstep.CoreQueue;
  }

  lemma RequestHoldsNothing(b: Bridge, toBridge: seq<ToBridge>)
    requires b.BridgeOn?
    ensures |toBridge| == 1 && toBridge[0].CommitRequest? ==> Holds(b, toBridge) <= |b.deferred|
  {
    if |toBridge| == 1 && toBridge[0].CommitRequest? {
      assert toBridge[1..] == [];
      assert Forwarding.Commands(toBridge) == [] + Forwarding.Commands([]) == [];
    }
  }

  lemma NoRequestNext(w: World, s: System, pending: seq<Pending>)
    requires Sane(w, s) && Overfull(s, pending) && s.bridge.BridgeOn? && s.toBridge != []
    ensures s.toBridge[0].Forward?
  {
    hide Sane, Holds;
    RequestIsLast(w, s);
    RequestHoldsNothing(s.bridge, s.toBridge);
  }

  lemma ReceiveOverfull(w: World, s: System, pending: seq<Pending>)
    requires Sane(w, s) && Overfull(s, pending) && ReaderReceive(w, s).Some?
    ensures Overfull(ReaderReceive(w, s).value, pending)
  {
    NoRequestNext(w, s, pending);
    HoldsNext(s.bridge, s.toBridge);
    hide Sane;
  }

  lemma ConfirmOverfull(s: System, pending: seq<Pending>)
    requires Overfull(s, pending) && ClientConfirm(s).Some?
    ensures Overfull(ClientConfirm(s).value, pending)
  {
    if s.bridge.BridgeOn? {
      var request := [CommitRequest(s.client.receipt, s.client.sequence)];
      Forwarding.CommandsConcat(s.toBridge, request);
      assert Forwarding.Commands(request) == [];
      assert Forwarding.Commands(s.toBridge) + [] == Forwarding.Commands(s.toBridge);
    }
  }

  /** The other steps leave commands, spool and forwarding as they are. */
  lemma OthersOverfull(w: World, s: System, a: Action, pending: seq<Pending>)
    requires Overfull(s, pending) && Quiet(a) && !a.ReaderReceives? && !a.ClientConfirms? && Next(w, s, a).Some?
    ensures Overfull(Next(w, s, a).value, pending)
  {
    hide Deliverable, CommitReplayed, FindTombstone, LogAfter, Holds;
    HoldsSame(s, Next(w, s, a).value);
  }

  lemma HoldsSame(s: System, t: System)
    ensures s.bridge.BridgeOn? && t.bridge.BridgeOn? && t.bridge.forwarding == s.bridge.forwarding &&
            t.bridge.deferred == s.bridge.deferred && t.toBridge == s.toBridge ==>
              Holds(t.bridge, t.toBridge) == Holds(s.bridge, s.toBridge)
  {
  }

  lemma StepOverfull(w: World, s: System, a: Action, pending: seq<Pending>)
    requires Sane(w, s) && Overfull(s, pending) && Quiet(a) && Next(w, s, a).Some?
    ensures Overfull(Next(w, s, a).value, pending)
  {
    hide Sane, Overfull, ReaderReceive, ClientConfirm, Quiet;
    if a.ReaderReceives? {
      ReceiveOverfull(w, s, pending);
    } else if a.ClientConfirms? {
      ConfirmOverfull(s, pending);
    } else {
      OthersOverfull(w, s, a, pending);
      hide Next;
    }
  }

  lemma {:induction false} RunOverfull(w: World, s: System, actions: seq<Action>, pending: seq<Pending>)
    requires Sane(w, s) && Overfull(s, pending) && AllQuiet(actions) && Run(w, s, actions).Some?
    ensures Overfull(Run(w, s, actions).value, pending)
    decreases |actions|
  {
    hide Next, Quiet, Sane, Overfull;
    if actions != [] {
      assert actions[0] in actions && forall a :: a in actions[1..] ==> a in actions;
      StepOverfull(w, s, actions[0], pending);
      StepSane(w, s, actions[0]);
      RunOverfull(w, Next(w, s, actions[0]).value, actions[1..], pending);
    }
  }

  lemma StepDeferred(w: World, s: System, a: Action)
    requires Next(w, s, a).Some? && (s.bridge.BridgeOn? ==> |s.bridge.deferred| <= MAX_DEFERRED)
    ensures var t := Next(w, s, a).value; t.bridge.BridgeOn? ==> |t.bridge.deferred| <= MAX_DEFERRED
  {
    hide Deliverable, CommitDelivery, CommitReplayed, FindTombstone, LogAfter, Mark, Store, DeviceMaySend, FinalizeSession,
      ContextsFit, SummaryPolicy;
  }

  lemma {:induction false} RunDeferred(w: World, s: System, actions: seq<Action>)
    requires Run(w, s, actions).Some? && (s.bridge.BridgeOn? ==> |s.bridge.deferred| <= MAX_DEFERRED)
    ensures var t := Run(w, s, actions).value; t.bridge.BridgeOn? ==> |t.bridge.deferred| <= MAX_DEFERRED
    decreases |actions|
  {
    hide Next;
    if actions != [] {
      StepDeferred(w, s, actions[0]);
      RunDeferred(w, Next(w, s, actions[0]).value, actions[1..]);
    }
  }

  // ---------------------------------------------------------------- the exact condition

  /** After HELLO these steps replay the whole spool and enable forwarding: everything ever stored is
      resolved, and every command sent so far has reached the device, in order. */
  ghost predicate Replays(w: World, t: System, actions: seq<Action>) {
    AllQuiet(actions) &&
    var end := Run(w, t, [DeviceReplies(true)] + actions);
    end.Some? && end.value.bridge.BridgeOn? && end.value.spool.pending == [] && end.value.bridge.forwarding &&
    end.value.bridge.serial == Reading && end.value.bridge.deferred == [] && end.value.client.Ready? &&
    Forwarding.NonHello(end.value.written) == Forwarding.NonHello(t.sent) &&
    forall id :: id in end.value.stored ==> Logged(end.value.log, id)
  }

  lemma EndReplays(w: World, t: System, m: System, end: System) returns (actions: seq<Action>)
    requires Sane(w, t) && Forwarding.InOrder(t) && Next(w, t, DeviceReplies(true)) == Some(m) && m.sent == t.sent
    requires Reaches(w, m, end) && Calm(w, end) && end.spool.pending == []
    requires end.bridge.serial == Reading && end.bridge.forwarding && end.bridge.deferred == []
    ensures Replays(w, t, actions)
  {
    hide Run, Sane, AllQuiet, Next, Forwarding.InOrder, Logged;
    actions :| AllQuiet(actions) && Run(w, m, actions) == Some(end);
    QuietRunSends(w, m, actions);
    EarlyCapture.RunOne(w, t, DeviceReplies(true));
    EarlyCapture.RunConcat(w, t, [DeviceReplies(true)], actions);
    SaneInv(w, t);
    Forwarding.RunInOrder(w, t, [DeviceReplies(true)] + actions);
    NothingWaits(w, end);
    AllResolved(w, end);
  }

  lemma OverfullStays(w: World, t: System, m: System, actions: seq<Action>)
    requires Sane(w, m) && Next(w, t, DeviceReplies(true)) == Some(m) && Overfull(m, m.spool.pending)
    ensures !Replays(w, t, actions)
  {
    hide Run, Sane, AllQuiet, Next, Logged, Holds;
    if Replays(w, t, actions) {
      EarlyCapture.RunOne(w, t, DeviceReplies(true));
      EarlyCapture.RunConcat(w, t, [DeviceReplies(true)], actions);
      RunOverfull(w, m, actions, m.spool.pending);
    }
  }

  /** Progress, exactly. In every reachable state with both ends up and the bridge reading from the
      device, where each pending frame can be delivered and has a policy registered for its boot:
      when the device answers HELLO, bridge and core can bring the replay to its end by themselves,
      without reconnecting and with nothing more from the device or the application, if and only if
      nothing is pending or no more commands wait than the bridge may hold back. */
  lemma HelloReplays(w: World, s: System, before: seq<Action>)
    requires Initial(w, s) && Run(w, s, before).Some?
    requires var t := Run(w, s, before).value;
             t.bridge.BridgeOn? && t.bridge.serial.Reading? && !t.client.ClientOff? && Prepared(w, t)
    ensures var t := Run(w, s, before).value;
            (exists actions :: Replays(w, t, actions)) <==>
              t.spool.pending == [] || Holds(t.bridge, t.toBridge) <= MAX_DEFERRED
  {
    InitialSane(w, s);
    RunSane(w, s, before);
    InitialOrdered(w, s);
    Forwarding.RunInOrder(w, s, before);
    InitialOff(w, s);
    RunDeferred(w, s, before);
    hide Run, Initial, Sane, Prepared, Holds, Next, Forwarding.InOrder, Lockstep.Inv, Replays, Reaches;
    var t := Run(w, s, before).value;
    HelloReplied(w, t);
    var m := Next(w, t, DeviceReplies(true)).value;
    PreparedSame(w, t, m);
    if t.spool.pending == [] {
      var end := NothingToReplay(w, m);
      var actions := EndReplays(w, t, m, end);
    } else if Holds(t.bridge, t.toBridge) <= MAX_DEFERRED {
      var end := ReplayEnds(w, m);
      var actions := EndReplays(w, t, m, end);
    } else {
      ForwardingHoldsNone(m.bridge, m.toBridge);
      forall actions ensures !Replays(w, t, actions) {
        OverfullStays(w, t, m, actions);
      }
    }
  }

  lemma InitialOff(w: World, s: System)
    requires Initial(w, s)
    ensures s.bridge.BridgeOff?
  {
  }

  lemma ForwardingHoldsNone(b: Bridge, toBridge: seq<ToBridge>)
    requires b.BridgeOn?
    ensures b.forwarding ==> Holds(b, toBridge) == 0
  {
  }

  lemma SaneInv(w: World, t: System)
    requires Sane(w, t)
    ensures Lockstep.Inv(w, t)
  {
    hide Lockstep.Inv, ExactlyOnce.Sound, Records;
  }

  lemma InitialOrdered(w: World, s: System)
    requires Initial(w, s)
    ensures Lockstep.Inv(w, s) && Forwarding.InOrder(s)
  {
    Lockstep.InitialInv(w, s);
    hide Lockstep.Inv;
  }

  lemma PreparedSame(w: World, t: System, m: System)
    requires t.bridge.BridgeOn? && Prepared(w, t) && m.bridge == t.bridge.(serial := Querying)
    requires m.spool == t.spool && m.core == t.core && m.toBridge == t.toBridge
    ensures Prepared(w, m) && Holds(m.bridge, m.toBridge) == Holds(t.bridge, t.toBridge)
  {
    hide Deliverable;
  }
}
