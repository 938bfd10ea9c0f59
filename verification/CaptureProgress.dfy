/** A capture the device sends can always be handed over: stored, delivered, resolved by the running
    session and acknowledged, after which the bridge reads on as before. And a HELLO is never held back. */
module CaptureProgress {
  import opened Bytes
  import opened Delivery
  import opened Spool
  import opened CoreStore
  import opened Accounting
  import opened DeliverySystem
  import opened NeverRefused
  import opened ReplayProgress
  import EarlyCapture
  import Forwarding
  import Handoff
  import Lockstep
  import ExactlyOnce

  // ---------------------------------------------------------------- the steps of one hand-over

  /** The capture is in the spool, and the serial loop has it in hand. */
  lemma StoreStage(w: World, s: System, frame: seq<byte>, source: Source, sequence: nat) returns (t: System)
    requires Sane(w, s) && !w.strict && s.bridge.BridgeOn? && s.bridge.serial.Reading? && DeviceMaySend(w, s, frame)
    requires Store(w.codec, s.spool, frame, source).Stored?
    ensures Next(w, s, DeviceCaptures(frame, source, sequence)) == Some(t) && Sane(w, t)
    ensures t.bridge.BridgeOn? && t.bridge.serial.Sending?
    ensures var row := t.bridge.serial.row;
            t.bridge.serial == Sending(row, sequence, ToReading) && row.frame == frame &&
            w.codec.identity(frame) == Some(row.identity) && row in t.spool.pending
    ensures t == s.(spool := t.spool, stored := t.stored, bridge := t.bridge)
    ensures t.bridge == s.bridge.(serial := t.bridge.serial, events := t.bridge.events)
    ensures t.spool == Store(w.codec, s.spool, frame, source).rows
  {
    StoredRow(w, s, frame, source);
    var a := DeviceCaptures(frame, source, sequence);
    t := SerialCapture(w, s, frame, source, sequence).value;
    hide Sane, Store, DeviceMaySend;
    StepSane(w, s, a);
  }

  lemma StoredRow(w: World, s: System, frame: seq<byte>, source: Source)
    requires Sane(w, s) && DeviceMaySend(w, s, frame) && Store(w.codec, s.spool, frame, source).Stored?
    ensures var r := Store(w.codec, s.spool, frame, source);
            r.row.frame == frame && w.codec.identity(frame) == Some(r.row.identity) && r.row in r.rows.pending
  {
    SpoolFits(w, s);
    StoreExactly(w.codec, s.spool, frame, source);
    hide Sane, WellFormed, DeviceMaySend, Store;
  }

  lemma SpoolFits(w: World, s: System)
    requires Sane(w, s)
    ensures WellFormed(w.codec, s.spool)
  {
    hide WellFormed, Lockstep.Flow, Lockstep.RowsHeld, Handoff.FlightKnown, ExactlyOnce.Sound, Records, ContextsFit;
  }

  /** The delivery is in the client's slot. */
  lemma OfferStage(w: World, s: System) returns (t: System)
    requires Calm(w, s) && s.bridge.serial.Sending? && Deliverable(w.codec, ParcelOf(s.bridge.connection, s.bridge.serial.row))
    ensures Reaches(w, s, t) && Sane(w, t) && t.spool == s.spool && t.core == s.core && t.log == s.log
    ensures var Sending(row, sequence, resume) := s.bridge.serial;
            t == s.(client := Accepted(ParcelOf(s.bridge.connection, row), sequence), emitted := t.emitted,
                    bridge := s.bridge.(serial := Waiting(row, sequence, resume)))
  {
    hide Sane, Deliverable, Reaches;
    var m := SerialSend(w, s).value;
    t := ClientReceive(w, m).value;
    ReachesNext(w, s, SendDelivery, m);
    ReachesNext(w, m, ClientReceives, t);
    ReachesOn(w, s, m, t);
    ReachesSane(w, s, t);
  }

  /** The running session resolves it, and the receipt is on its way. */
  lemma LiveStage(w: World, s: System, session: SessionId) returns (m: System, t: System)
    requires Sane(w, s) && s.client.Accepted? && s.bridge.BridgeOn? && s.toBridge == []
    requires Open(s.core, session) && session != ""
    ensures Next(w, s, CommitLive(session)) == Some(m) && Reaches(w, m, t) && Sane(w, t)
    ensures t.client.Awaiting? && t.client.parcel == s.client.parcel && t.client.sequence == s.client.sequence
    ensures t == s.(core := t.core, log := t.log, client := t.client,
                    toBridge := [CommitRequest(t.client.receipt, t.client.sequence)])
  {
    DeliveryWelcome(w, s);
    hide Sane, Welcome, Reaches;
    LiveHere(w, s, session);
    m := Next(w, s, CommitLive(session)).value;
    LiveShape(w, s, session, m);
    StepSane(w, s, CommitLive(session));
    t := ClientConfirm(m).value;
    hide Next;
    ConfirmIsNext(w, m);
    ReachesNext(w, m, ClientConfirms, t);
    ReachesSane(w, m, t);
  }

  lemma LiveShape(w: World, s: System, session: SessionId, m: System)
    requires s.client.Accepted? && Next(w, s, CommitLive(session)) == Some(m) && m.client.Committed?
    ensures m.client.parcel == s.client.parcel && m.client.sequence == s.client.sequence
    ensures m == s.(core := m.core, log := m.log, client := m.client)
  {
    hide CommitDelivery, LogAfter;
  }

  /** The receipt takes its row out of the spool. */
  lemma TakeStage(w: World, s: System) returns (t: System)
    requires Sane(w, s) && s.bridge.BridgeOn? && s.bridge.reader.Idle? && s.bridge.serial.Waiting?
    requires |s.toBridge| == 1 && s.toBridge[0].CommitRequest?
    ensures Reaches(w, s, t) && Sane(w, t) && t.bridge.BridgeOn? && t.bridge.reader.Marked?
    ensures Logged(t.log, s.bridge.serial.row.identity) && Lockstep.RowTaken(s.spool.pending, t.spool.pending, s.bridge.serial.row)
    ensures t == s.(spool := t.spool, toBridge := [], bridge := s.bridge.(reader := t.bridge.reader))
  {
    SaneInv(w, s);
    Lockstep.ReceiptTakesRow(w, s);
    hide Sane, Reaches, Mark, Lockstep.Inv, Lockstep.RowTaken, Logged;
    t := ReaderReceive(w, s).value;
    ReachesNext(w, s, ReaderReceives, t);
    ReachesSane(w, s, t);
  }

  /** The response is read, and the loop goes back to where the delivery began. */
  lemma ReturnStage(w: World, s: System) returns (t: System)
    requires Sane(w, s) && s.bridge.BridgeOn? && s.bridge.serial.Waiting? && s.bridge.serial.resume.ToReading?
    requires s.bridge.reader.Marked? && s.client.Awaiting? && s.toCore == []
    ensures Reaches(w, s, t) && Calm(w, t) && Aside(s, t) && t.spool == s.spool && t.bridge.serial == Reading && t.log == s.log
  {
    hide Sane, Reaches;
    var m := RespondStage(w, s);
    ResponseIsRead(w, m);
    hide ResponseMatches;
    var n := ClientReceive(w, m).value;
    t := SerialResume(n).value;
    ReachesNext(w, m, ClientReceives, n);
    ReachesNext(w, n, ResumeSerial, t);
    ReachesOn(w, m, n, t);
    ReachesOn(w, s, m, t);
    ReachesSane(w, s, t);
  }

  // ---------------------------------------------------------------- the whole hand-over

  /** What bridge and core do by themselves while this session runs. */
  predicate Working(a: Action, session: SessionId) {
    Quiet(a) || a == CommitLive(session)
  }

  predicate AllWorking(actions: seq<Action>, session: SessionId) {
    forall a :: a in actions ==> Working(a, session)
  }

  /** The capture is resolved and gone from the spool, every other row is still there, and the
      bridge reads from the device again, forwarding or not as before. */
  ghost predicate HandedOver(w: World, t: System, rows: Rows, id: Identity, end: System) {
    end.bridge.BridgeOn? && end.bridge.serial == Reading && t.bridge.BridgeOn? &&
    end.bridge.forwarding == t.bridge.forwarding && end.client.Ready? && Logged(end.log, id) &&
    forall p :: p in end.spool.pending <==> p in rows.pending && p.identity != id
  }

  lemma RowGone(codec: Codec, s: Rows, after: seq<Pending>, row: Pending)
    requires WellFormed(codec, s) && Lockstep.RowTaken(s.pending, after, row)
    ensures forall p :: p in after <==> p in s.pending && p.identity != row.identity
  {
    var k :| 0 <= k < |s.pending| && s.pending[k] == row && after == s.pending[..k] + s.pending[k + 1..];
    WithoutOne(s.pending, k);
  }

  /** From the stored row to its receipt. */
  lemma SettledStage(w: World, s: System) returns (t: System)
    requires Sane(w, s) && s.bridge.BridgeOn? && s.bridge.serial.Sending? && !s.client.ClientOff?
    requires Holds(s.bridge, s.toBridge) <= MAX_DEFERRED
    ensures Reaches(w, s, t) && Calm(w, t) && t.spool == s.spool && t.core == s.core
    ensures t.bridge.serial == s.bridge.serial && t.bridge.forwarding == s.bridge.forwarding
    ensures t.bridge.connection == s.bridge.connection
  {
    hide Sane, Reaches, Holds;
    var m := ClientSettles(w, s);
    t := ReaderSettles(w, m);
    ReachesOn(w, s, m, t);
  }

  lemma ReceiptStage(w: World, s: System) returns (t: System)
    requires Sane(w, s) && s.bridge.BridgeOn? && s.bridge.reader.Idle? && s.bridge.serial.Waiting?
    requires s.bridge.serial.resume.ToReading? && |s.toBridge| == 1 && s.toBridge[0].CommitRequest?
    requires s.client.Awaiting? && s.toCore == []
    ensures Reaches(w, s, t) && HandedOver(w, s, s.spool, s.bridge.serial.row.identity, t)
  {
    SpoolFits(w, s);
    hide Sane, Reaches, WellFormed, Logged;
    var m := TakeStage(w, s);
    t := ReturnStage(w, m);
    ReachesOn(w, s, m, t);
    RowGone(w.codec, s.spool, m.spool.pending, s.bridge.serial.row);
  }

  lemma Handing(w: World, s: System, session: SessionId) returns (offered: System, held: System, end: System)
    requires Sane(w, s) && s.bridge.BridgeOn? && s.bridge.serial.Sending? && s.bridge.serial.resume.ToReading?
    requires !s.client.ClientOff? && Holds(s.bridge, s.toBridge) <= MAX_DEFERRED
    requires Deliverable(w.codec, ParcelOf(s.bridge.connection, s.bridge.serial.row))
    requires Open(s.core, session) && session != ""
    ensures Reaches(w, s, offered) && Next(w, offered, CommitLive(session)) == Some(held) && Reaches(w, held, end)
    ensures HandedOver(w, s, s.spool, s.bridge.serial.row.identity, end)
  {
    hide Sane, Reaches, Holds, Deliverable, Next, Logged;
    var calm := SettledStage(w, s);
    offered := OfferStage(w, calm);
    ReachesOn(w, s, calm, offered);
    var asked: System;
    held, asked := LiveStage(w, offered, session);
    end := ReceiptStage(w, asked);
    ReachesOn(w, held, asked, end);
  }

  lemma WorkingJoins(a: seq<Action>, session: SessionId, b: seq<Action>)
    requires AllQuiet(a) && AllQuiet(b)
    ensures AllWorking(a + [CommitLive(session)] + b, session)
  {
  }

  lemma StoredIs(codec: Codec, s: Rows, frame: seq<byte>, source: Source)
    requires Store(codec, s, frame, source).Stored?
    ensures codec.identity(frame).Some?
  {
  }

  /** From every reachable state with both ends up and the bridge reading, where there is room for the
      commands that wait: when the device sends a deliverable capture that the spool takes, bridge
      and core can hand it over by themselves to any session that is named and open. The capture is
      then resolved and leaves the spool alone, and the bridge reads on as before. */
  lemma CaptureHandedOver(w: World, s: System, before: seq<Action>, frame: seq<byte>, source: Source, sequence: nat,
                          session: SessionId) returns (actions: seq<Action>)
    requires Initial(w, s) && Run(w, s, before).Some? && !w.strict && session != ""
    requires var t := Run(w, s, before).value;
             t.bridge.BridgeOn? && t.bridge.serial.Reading? && !t.client.ClientOff? && Open(t.core, session) &&
             Holds(t.bridge, t.toBridge) <= MAX_DEFERRED && DeviceMaySend(w, t, frame) &&
             var r := Store(w.codec, t.spool, frame, source);
             r.Stored? && Deliverable(w.codec, ParcelOf(t.bridge.connection, r.row))
    ensures var t := Run(w, s, before).value;
            AllWorking(actions, session) && w.codec.identity(frame).Some? &&
            var end := Run(w, t, [DeviceCaptures(frame, source, sequence)] + actions);
            end.Some? &&
            HandedOver(w, t, Store(w.codec, t.spool, frame, source).rows, w.codec.identity(frame).value, end.value)
  {
    InitialSane(w, s);
    RunSane(w, s, before);
    hide Run, Initial, Sane, Next, Reaches, Deliverable, DeviceMaySend, Holds, Store, HandedOver, AllQuiet, AllWorking;
    var t := Run(w, s, before).value;
    var r := Store(w.codec, t.spool, frame, source);
    StoredIs(w.codec, t.spool, frame, source);
    var u := StoreStage(w, t, frame, source, sequence);
    HoldsSame(t, u);
    StoredSends(w, t, frame, source, sequence, u);
    var offered, held, end := Handing(w, u, session);
    HandedBefore(w, t, u, u.spool, w.codec.identity(frame).value, end);
    actions := JoinRun(w, t, DeviceCaptures(frame, source, sequence), u, offered, session, held, end);
  }

  lemma StoredSends(w: World, t: System, frame: seq<byte>, source: Source, sequence: nat, u: System)
    requires !w.strict && Next(w, t, DeviceCaptures(frame, source, sequence)) == Some(u) && u.bridge.BridgeOn?
    requires Store(w.codec, t.spool, frame, source).Stored?
    ensures u.bridge.serial.Sending? && u.bridge.serial.row == Store(w.codec, t.spool, frame, source).row
  {
    hide Store, DeviceMaySend;
  }

  lemma HandedBefore(w: World, t: System, u: System, rows: Rows, id: Identity, end: System)
    requires HandedOver(w, u, rows, id, end) && t.bridge.BridgeOn? && u.bridge.BridgeOn?
    requires t.bridge.forwarding == u.bridge.forwarding
    ensures HandedOver(w, t, rows, id, end)
  {
    hide Logged;
  }

  lemma JoinRun(w: World, t: System, first: Action, u: System, offered: System, session: SessionId, held: System,
                end: System) returns (actions: seq<Action>)
    requires Next(w, t, first) == Some(u) && Reaches(w, u, offered)
    requires Next(w, offered, CommitLive(session)) == Some(held) && Reaches(w, held, end)
    ensures AllWorking(actions, session) && Run(w, t, [first] + actions) == Some(end)
  {
    hide Run, Next, AllQuiet, AllWorking;
    var a :| AllQuiet(a) && Run(w, u, a) == Some(offered);
    var b :| AllQuiet(b) && Run(w, held, b) == Some(end);
    var commit := [CommitLive(session)];
    WorkingJoins(a, session, b);
    actions := a + commit + b;
    EarlyCapture.RunOne(w, offered, CommitLive(session));
    EarlyCapture.RunConcat(w, u, a, commit);
    EarlyCapture.RunConcat(w, u, a + commit, b);
    EarlyCapture.RunOne(w, t, first);
    EarlyCapture.RunConcat(w, t, [first], actions);
  }

  // ---------------------------------------------------------------- HELLO is never held back

  /** Whether or not forwarding has started, a HELLO that has come to the head of the stream is written
      to the device by two steps of the idle reader, before any command that is being held back. */
  lemma HelloPasses(w: World, t: System)
    requires t.bridge.BridgeOn? && t.bridge.reader.Idle? && !t.bridge.serial.Flushing?
    requires t.toBridge != [] && t.toBridge[0].Forward? && t.toBridge[0].command.hello
    ensures Run(w, t, [ReaderReceives, ReaderWrites]) ==
              Some(t.(written := t.written + [t.toBridge[0].command], toBridge := t.toBridge[1..]))
  {
    hide Run;
    var m := ReaderReceive(w, t).value;
    var n := ReaderWrite(m).value;
    EarlyCapture.RunOne(w, t, ReaderReceives);
    EarlyCapture.RunOne(w, m, ReaderWrites);
    EarlyCapture.RunConcat(w, t, [ReaderReceives], [ReaderWrites]);
    assert [ReaderReceives] + [ReaderWrites] == [ReaderReceives, ReaderWrites];
  }
}
