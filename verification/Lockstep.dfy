/** The two processes stay in step: a delivery on the stream is followed by its own commit
    response, the client's single receive always reads that response, and the receipt always
    names the row the serial loop is waiting for. */
module Lockstep {
  import opened Bytes
  import opened Delivery
  import opened Spool
  import opened CoreStore
  import opened Accounting
  import opened DeliverySystem
  import Handoff

  function ReceiptOf(connection: nat, row: Pending): Receipt {
    Receipt(connection, row.record, row.identity, row.crc)
  }

  predicate Busy(reader: CoreReader) {
    reader.Marked? || reader.Responded?
  }

  /** Exactly the delivery being waited for has an event, and the reader answers only it. */
  predicate BridgeLocal(b: Bridge)
    requires b.BridgeOn?
  {
    match b.serial
    case Sending(row, _, _) => b.events == map[row.record := false] && !Busy(b.reader)
    case Waiting(row, sequence, _) =>
      b.events.Keys == {row.record} &&
      (Busy(b.reader) ==> !b.events[row.record]) &&
      (b.reader.Marked? ==> b.reader.receipt == ReceiptOf(b.connection, row) && b.reader.sequence == sequence) &&
      (b.reader.Responded? ==> b.reader.record == row.record)
    case _ => b.events == map[] && !Busy(b.reader)
  }

  /** The delivery is on the stream and its response is not. */
  predicate Unanswered(b: Bridge) {
    b.BridgeOn? && b.serial.Waiting? && b.serial.row.record in b.events && !b.events[b.serial.row.record] &&
    !b.reader.Responded?
  }

  /** Nor has the row been marked. */
  predicate Unmarked(b: Bridge) {
    Unanswered(b) && !b.reader.Marked?
  }

  predicate Carries(b: Bridge, parcel: Parcel, sequence: nat) {
    b.BridgeOn? && b.serial.Waiting? && parcel == ParcelOf(b.connection, b.serial.row) && sequence == b.serial.sequence
  }

  /** The queue towards the core, seen by the client alone. */
  predicate CoreQueue(client: Client, toCore: seq<ToCore>) {
    (client.ClientOff? || client.Accepted? || client.Committed? ==> toCore == []) &&
    (client.Awaiting? && toCore != [] ==> ResponseMatches(toCore[0], client.parcel, client.sequence)) &&
    (forall i :: 0 <= i < |toCore| && toCore[i].CommitResponse? ==> i == 0 && client.Awaiting?) &&
    (forall i :: 0 <= i < |toCore| && toCore[i].Deliver? ==> i == |toCore| - 1)
  }

  predicate HasRequest(toBridge: seq<ToBridge>) {
    exists i :: 0 <= i < |toBridge| && toBridge[i].CommitRequest?
  }

  /** The queue towards the bridge: a receipt is last, and it is the one being waited for. */
  predicate BridgeQueue(b: Bridge, client: Client, toCore: seq<ToCore>, toBridge: seq<ToBridge>) {
    forall i :: 0 <= i < |toBridge| && toBridge[i].CommitRequest? ==>
      i == |toBridge| - 1 && Unmarked(b) &&
      toBridge[i].receipt == ReceiptOf(b.connection, b.serial.row) && toBridge[i].sequence == b.serial.sequence &&
      (client.ClientOff? || (client.Awaiting? && toCore == []))
  }

  /** How a running bridge and a running client fit together. */
  predicate Paired(b: Bridge, client: Client, toCore: seq<ToCore>, toBridge: seq<ToBridge>)
    requires b.BridgeOn?
  {
    (client.Accepted? || client.Committed? ==>
      Unmarked(b) && Carries(b, client.parcel, client.sequence) && !HasRequest(toBridge)) &&
    (client.Committed? ==> client.receipt == ReceiptOf(b.connection, b.serial.row)) &&
    (client.Awaiting? && toCore == [] ==> Unanswered(b) && Carries(b, client.parcel, client.sequence)) &&
    (b.reader.Marked? ==> toBridge == [] && (client.ClientOff? || (client.Awaiting? && toCore == []))) &&
    (forall i :: 0 <= i < |toCore| && toCore[i].Deliver? ==>
      Unmarked(b) && Carries(b, toCore[i].parcel, toCore[i].sequence) && !HasRequest(toBridge))
  }

  /** On the stream, a delivery is followed by its response; only a delivery still
      unanswered can be the last frame. */
  predicate StreamAlternates(emitted: seq<ToCore>) {
    forall i :: 0 <= i < |emitted| - 1 && emitted[i].Deliver? ==>
      emitted[i + 1].CommitResponse? && emitted[i + 1].record == emitted[i].parcel.record
  }

  predicate LastEmitted(b: Bridge, emitted: seq<ToCore>) {
    emitted != [] && emitted[|emitted| - 1].Deliver? ==>
      b.BridgeOn? ==> Unanswered(b) && b.serial.row.record == emitted[|emitted| - 1].parcel.record
  }

  predicate Flow(s: System) {
    CoreQueue(s.client, s.toCore) && StreamAlternates(s.emitted) && LastEmitted(s.bridge, s.emitted) &&
    (s.bridge.BridgeOff? ==> s.toBridge == []) &&
    (s.bridge.BridgeOn? ==>
      BridgeLocal(s.bridge) && BridgeQueue(s.bridge, s.client, s.toCore, s.toBridge) &&
      Paired(s.bridge, s.client, s.toCore, s.toBridge))
  }

  lemma DropKeeps(s: System)
    requires Flow(s)
    ensures Flow(DropBridge(s)) && Flow(DropClient(s))
  {
  }

  lemma ConnectKeeps(s: System, connection: nat)
    requires Flow(s) && Connected(s, connection).Some?
    ensures Flow(Connected(s, connection).value)
  {
  }

  lemma QueryKeeps(s: System)
    requires Flow(s) && SerialQuery(s).Some?
    ensures Flow(SerialQuery(s).value)
  {
    hide StreamAlternates;
  }

  lemma NextKeeps(s: System)
    requires Flow(s) && SerialNext(s).Some?
    ensures Flow(SerialNext(s).value)
  {
    hide StreamAlternates;
  }

  lemma ResumeKeeps(s: System)
    requires Flow(s) && SerialResume(s).Some?
    ensures Flow(SerialResume(s).value)
  {
    hide StreamAlternates;
  }

  lemma EnableKeeps(s: System)
    requires Flow(s) && SerialEnable(s).Some?
    ensures Flow(SerialEnable(s).value)
  {
    hide StreamAlternates;
  }

  lemma FlushKeeps(s: System)
    requires Flow(s) && SerialFlush(s).Some?
    ensures Flow(SerialFlush(s).value)
  {
    hide StreamAlternates;
  }

  lemma ReplyKeeps(s: System, hello: bool)
    requires Flow(s) && SerialReply(s, hello).Some?
    ensures Flow(SerialReply(s, hello).value)
  {
  }

  lemma SendKeeps(w: World, s: System)
    requires Flow(s) && SerialSend(w, s).Some?
    ensures Flow(SerialSend(w, s).value)
  {
    hide Deliverable;
    DropKeeps(s);
  }

  lemma CaptureKeeps(w: World, s: System, frame: seq<byte>, source: Source, sequence: nat)
    requires Flow(s) && SerialCapture(w, s, frame, source, sequence).Some?
    ensures Flow(SerialCapture(w, s, frame, source, sequence).value)
  {
    hide Store, DeviceMaySend;
    DropKeeps(s);
  }

  lemma ReceiveKeeps(w: World, s: System)
    requires Flow(s) && ReaderReceive(w, s).Some?
    ensures Flow(ReaderReceive(w, s).value)
  {
    DropKeeps(s);
    var t := ReaderReceive(w, s).value;
    if t.bridge.BridgeOn? {
      if s.toBridge[0].CommitRequest? {
        RequestTaken(s, t);
      } else {
        CommandTaken(s, t);
      }
    }
  }

  lemma RequestTaken(s: System, t: System)
    requires Flow(s) && s.bridge.BridgeOn? && s.bridge.reader.Idle? && s.toBridge != [] && s.toBridge[0].CommitRequest?
    requires t.bridge.BridgeOn? && t.bridge.reader.Marked?
    requires t.bridge.reader == Marked(s.toBridge[0].receipt, s.toBridge[0].sequence, t.bridge.reader.disposition)
    requires t == s.(spool := t.spool, toBridge := s.toBridge[1..], bridge := s.bridge.(reader := t.bridge.reader))
    ensures Flow(t)
  {
    hide StreamAlternates;
  }

  lemma CommandTaken(s: System, t: System)
    requires Flow(s) && s.bridge.BridgeOn? && s.bridge.reader.Idle? && s.toBridge != [] && s.toBridge[0].Forward?
    requires t.bridge.BridgeOn? && (t.bridge.reader.Writing? || t.bridge.reader.Idle?)
    requires t == s.(toBridge := s.toBridge[1..],
                     bridge := s.bridge.(reader := t.bridge.reader, deferred := t.bridge.deferred))
    ensures Flow(t)
  {
    hide StreamAlternates;
    assert HasRequest(t.toBridge) ==> HasRequest(s.toBridge) by {
      if j :| 0 <= j < |t.toBridge| && t.toBridge[j].CommitRequest? {
        assert s.toBridge[j + 1].CommitRequest?;
      }
    }
  }

  lemma RespondKeeps(s: System)
    requires Flow(s) && ReaderRespond(s).Some?
    ensures Flow(ReaderRespond(s).value)
  {
  }

  lemma SignalKeeps(s: System)
    requires Flow(s) && ReaderSignal(s).Some?
    ensures Flow(ReaderSignal(s).value)
  {
    hide StreamAlternates;
    DropKeeps(s);
  }

  lemma WriteKeeps(s: System)
    requires Flow(s) && ReaderWrite(s).Some?
    ensures Flow(ReaderWrite(s).value)
  {
    hide StreamAlternates;
  }

  lemma ClientReceiveKeeps(w: World, s: System)
    requires Flow(s) && ClientReceive(w, s).Some?
    ensures Flow(ClientReceive(w, s).value)
  {
    hide StreamAlternates, Deliverable;
    DropKeeps(s);
  }

  lemma ClientSendKeeps(s: System, command: Command)
    requires Flow(s) && ClientSend(s, command).Some?
    ensures Flow(ClientSend(s, command).value)
  {
    hide StreamAlternates;
  }

  lemma ClientConfirmKeeps(s: System)
    requires Flow(s) && ClientConfirm(s).Some?
    ensures Flow(ClientConfirm(s).value)
  {
    hide StreamAlternates;
  }

  // ---------------------------------------------------------------- the rows a thread holds are in the table

  predicate RowHeld(pending: seq<Pending>, row: Pending, resume: Resume) {
    match resume
    case ToReading => row in pending
    case ToReplay(rest) => [row] + rest <= pending
  }

  /** Until its receipt is marked, the row being delivered is in the spool; the rest of a
      replay batch is the front of the spool. */
  predicate RowsHeld(b: Bridge, pending: seq<Pending>) {
    b.BridgeOn? ==>
      match b.serial
      case Replaying(rest) => rest <= pending
      case Sending(row, _, resume) => RowHeld(pending, row, resume)
      case Waiting(row, _, resume) =>
        if Unmarked(b) then RowHeld(pending, row, resume) else resume.ToReplay? ==> resume.rest <= pending
      case _ => true
  }

  ghost predicate Inv(w: World, s: System) {
    Handoff.Inv(w, s) && Flow(s) && RowsHeld(s.bridge, s.spool.pending)
  }

  lemma HeldRowFits(w: World, s: System)
    requires Inv(w, s) && Unmarked(s.bridge)
    ensures s.bridge.serial.row in s.spool.pending && RowFits(w.codec, s.bridge.serial.row)
    ensures s.bridge.serial.resume.ToReplay? ==> s.spool.pending[0] == s.bridge.serial.row
  {
    var row := s.bridge.serial.row;
    if s.bridge.serial.resume.ToReplay? {
      assert ([row] + s.bridge.serial.resume.rest)[0] == row;
    }
  }

  /** A commit moves the client from holding the parcel to holding its receipt. */
  lemma FlowAfterCommit(s: System, t: System)
    requires Flow(s) && s.client.Accepted?
    requires t == s.(core := t.core, client := t.client, log := t.log)
    requires t.client.Committed? && t.client.parcel == s.client.parcel && t.client.sequence == s.client.sequence
    requires s.bridge.BridgeOn? ==> t.client.receipt == ReceiptOf(s.bridge.connection, s.bridge.serial.row)
    ensures Flow(t)
  {
    hide StreamAlternates;
  }

  lemma CommitKeeps(w: World, s: System, a: Action)
    requires Inv(w, s) && Next(w, s, a).Some? && (a.CommitLive? || a.CommitReplay?)
    ensures Flow(Next(w, s, a).value)
  {
    var t := Next(w, s, a).value;
    hide CommitDelivery, CommitReplayed, FindTombstone, Flow, RowsHeld, Handoff.NothingLost, Deliverable;
    if t.client.Committed? {
      Handoff.CoreStepKeeps(w, s, a);
      assert Handoff.ClientKnown(w.codec, t.stored, t.log, t.client);
      hide Handoff.Inv, Next;
      if s.bridge.BridgeOn? {
        CommitReceipt(w, s);
      }
      FlowAfterCommit(s, t);
    }
  }

  lemma CommitReceipt(w: World, s: System)
    requires Inv(w, s) && s.client.Accepted? && s.bridge.BridgeOn?
    ensures s.bridge.serial.Waiting? && w.codec.identity(s.client.parcel.frame).Some?
    ensures ReceiptFor(w.codec, s.client.parcel) == ReceiptOf(s.bridge.connection, s.bridge.serial.row)
  {
    HeldRowFits(w, s);
  }

  /** The receipt that reaches the bridge is accepted, and removes the row being waited for. */
  lemma ReceiptAccepted(w: World, s: System)
    requires Inv(w, s) && s.bridge.BridgeOn? && s.toBridge != [] && s.toBridge[0].CommitRequest?
    ensures var r := Mark(s.spool, s.toBridge[0].receipt, w.limit);
            r.MarkedAs? && r.disposition.Deleted? &&
            exists k :: 0 <= k < |s.spool.pending| && s.spool.pending[k] == s.bridge.serial.row &&
              r.rows.pending == s.spool.pending[..k] + s.spool.pending[k + 1..] &&
              (s.bridge.serial.resume.ToReplay? ==> k == 0)
  {
    hide Mark;
    HeldRowFits(w, s);
    var row := s.bridge.serial.row;
    var k :| 0 <= k < |s.spool.pending| && s.spool.pending[k] == row && (s.bridge.serial.resume.ToReplay? ==> k == 0);
    MarkAccepts(w.codec, s.spool, s.toBridge[0].receipt, w.limit, k);
  }

  /** What a marked row leaves of a replay batch is still the front of the spool. */
  lemma BatchAdvances(before: seq<Pending>, after: seq<Pending>, row: Pending, resume: Resume)
    requires RowHeld(before, row, resume) && before != []
    requires resume.ToReplay? ==> after == before[..0] + before[1..]
    ensures resume.ToReplay? ==> resume.rest <= after
  {
    if resume.ToReplay? {
      assert after == before[1..];
      assert ([row] + resume.rest)[1..] == resume.rest;
      assert ([row] + resume.rest)[1..] <= before[1..];
    }
  }

  /** While a receipt is in the queue its row is being waited for, and afterwards it is marked. */
  lemma ReceiptShape(w: World, s: System)
    requires Flow(s) && ReaderReceive(w, s).Some? && s.toBridge[0].CommitRequest?
    ensures s.bridge.BridgeOn? && s.bridge.serial.Waiting? && Unmarked(s.bridge)
    ensures var r := Mark(s.spool, s.toBridge[0].receipt, w.limit);
            var t := ReaderReceive(w, s).value;
            r.MarkedAs? ==>
              t.spool == r.rows && t.bridge.BridgeOn? && t.bridge.serial == s.bridge.serial && !Unmarked(t.bridge)
  {
    hide Mark, StreamAlternates, CoreQueue, Paired, LastEmitted;
  }

  lemma HeldAfterReceipt(w: World, s: System)
    requires Inv(w, s) && ReaderReceive(w, s).Some? && s.toBridge[0].CommitRequest?
    ensures var t := ReaderReceive(w, s).value; RowsHeld(t.bridge, t.spool.pending)
  {
    ReceiptAccepted(w, s);
    ReceiptShape(w, s);
    hide Mark, Handoff.Inv, Flow, ReaderReceive, Unmarked, RowHeld;
    var r := Mark(s.spool, s.toBridge[0].receipt, w.limit);
    BatchAdvances(s.spool.pending, r.rows.pending, s.bridge.serial.row, s.bridge.serial.resume);
  }

  lemma HeldAfterCommand(w: World, s: System)
    requires Inv(w, s) && ReaderReceive(w, s).Some? && s.toBridge[0].Forward?
    ensures var t := ReaderReceive(w, s).value; RowsHeld(t.bridge, t.spool.pending)
  {
    hide Mark, Handoff.Inv, Flow, RowHeld;
  }

  predicate MovesReplay(a: Action) {
    a.NextReplay? || a.SendDelivery? || a.ResumeSerial? || a.QuerySpool?
  }

  lemma HeldAfterSerial(w: World, s: System, a: Action)
    requires Flow(s) && RowsHeld(s.bridge, s.spool.pending) && Next(w, s, a).Some? && MovesReplay(a)
    ensures var t := Next(w, s, a).value; RowsHeld(t.bridge, t.spool.pending)
  {
    hide StreamAlternates, Deliverable, BridgeQueue, CoreQueue, Paired, LastEmitted;
  }

  lemma HeldElsewhere(w: World, s: System, a: Action)
    requires Inv(w, s) && Next(w, s, a).Some? && !a.ReaderReceives? && !a.DeviceCaptures?
    ensures var t := Next(w, s, a).value; RowsHeld(t.bridge, t.spool.pending)
  {
    hide Handoff.Inv;
    if MovesReplay(a) {
      HeldAfterSerial(w, s, a);
      hide Next;
    } else {
      HeldOtherwise(w, s, a);
      hide Next;
    }
    hide Flow, RowsHeld;
  }

  lemma HeldOtherwise(w: World, s: System, a: Action)
    requires Flow(s) && RowsHeld(s.bridge, s.spool.pending) && Next(w, s, a).Some?
    requires !MovesReplay(a) && !a.ReaderReceives? && !a.DeviceCaptures?
    ensures var t := Next(w, s, a).value; RowsHeld(t.bridge, t.spool.pending)
  {
    hide StreamAlternates, CoreQueue, BridgeQueue, Paired, LastEmitted, CommitDelivery, CommitReplayed, FinalizeSession,
      Deliverable, FindTombstone, RowHeld, SummaryPolicy, ContextsFit;
  }

  lemma HeldAfterCapture(w: World, s: System, frame: seq<byte>, source: Source, sequence: nat)
    requires Inv(w, s) && SerialCapture(w, s, frame, source, sequence).Some?
    ensures var t := SerialCapture(w, s, frame, source, sequence).value; RowsHeld(t.bridge, t.spool.pending)
  {
    if Store(w.codec, s.spool, frame, source).Stored? {
      Handoff.CaptureStored(w, s, frame, source);
    }
  }

  lemma StepKeeps(w: World, s: System, a: Action)
    requires Inv(w, s) && Next(w, s, a).Some?
    ensures Inv(w, Next(w, s, a).value)
  {
    Handoff.StepKeeps(w, s, a);
    hide Handoff.Inv, Flow, RowsHeld, Connected, SerialReply, SerialCapture, SerialQuery, SerialNext, SerialSend,
      SerialResume, SerialEnable, SerialFlush, ReaderReceive, ReaderRespond, ReaderSignal, ReaderWrite, ClientSend,
      ClientReceive, ClientCommitLive, ClientCommitReplay, ClientConfirm, CoreSave, CoreEnd, CoreContexts;
    if !a.DeviceCaptures? && !a.ReaderReceives? {
      HeldElsewhere(w, s, a);
    }
    match a
    case Connect(connection) => ConnectKeeps(s, connection);
    case BridgeDrops => DropKeeps(s);
    case ClientDrops => DropKeeps(s);
    case DeviceReplies(hello) => ReplyKeeps(s, hello);
    case DeviceCaptures(frame, source, sequence) =>
      CaptureKeeps(w, s, frame, source, sequence);
      HeldAfterCapture(w, s, frame, source, sequence);
    case QuerySpool => QueryKeeps(s);
    case NextReplay => NextKeeps(s);
    case SendDelivery => SendKeeps(w, s);
    case ResumeSerial => ResumeKeeps(s);
    case EnableForwarding => EnableKeeps(s);
    case FlushOne => FlushKeeps(s);
    case ReaderReceives =>
      ReceiveKeeps(w, s);
      if s.toBridge[0].CommitRequest? { HeldAfterReceipt(w, s); } else { HeldAfterCommand(w, s); }
    case ReaderResponds => RespondKeeps(s);
    case ReaderSignals => SignalKeeps(s);
    case ReaderWrites => WriteKeeps(s);
    case ClientSends(command) => ClientSendKeeps(s, command);
    case ClientReceives => ClientReceiveKeeps(w, s);
    case CommitLive(_) => CommitKeeps(w, s, a);
    case CommitReplay => CommitKeeps(w, s, a);
    case ClientConfirms => ClientConfirmKeeps(s);
    case SaveSession(_, _) => CoreKeeps(w, s, a);
    case EndSession(_, _) => CoreKeeps(w, s, a);
    case SetContexts(_) => CoreKeeps(w, s, a);
  }

  lemma CoreKeeps(w: World, s: System, a: Action)
    requires Flow(s) && Next(w, s, a).Some? && (a.SaveSession? || a.EndSession? || a.SetContexts?)
    ensures Flow(Next(w, s, a).value)
  {
    hide FinalizeSession;
  }

  lemma InitialInv(w: World, s: System)
    requires Initial(w, s)
    ensures Inv(w, s)
  {
    forall id | id in s.stored ensures Handoff.PendingOrLogged(s.spool.pending, s.log, id) {
      var p :| p in s.spool.pending && p.identity == id;
    }
  }

  lemma {:induction false} RunKeeps(w: World, s: System, actions: seq<Action>)
    requires Inv(w, s) && Run(w, s, actions).Some?
    ensures Inv(w, Run(w, s, actions).value)
    decreases |actions|
  {
    hide Inv, Next;
    if actions != [] {
      StepKeeps(w, s, actions[0]);
      RunKeeps(w, Next(w, s, actions[0]).value, actions[1..]);
    }
  }

  // ---------------------------------------------------------------- what every run guarantees

  /** No loss: whatever the spool ever stored is pending with the same bytes or was resolved
      by the core with the same bytes. */
  lemma NoCaptureLost(w: World, s: System, actions: seq<Action>, id: Identity)
    requires Initial(w, s) && Run(w, s, actions).Some?
    ensures var t := Run(w, s, actions).value;
            id in t.stored ==>
              (exists p :: p in t.spool.pending && p.identity == id && p.frame == t.stored[id]) ||
              (exists e :: e in t.log && e.identity == id && e.frame == t.stored[id])
  {
    InitialInv(w, s);
    RunKeeps(w, s, actions);
    var t := Run(w, s, actions).value;
    if id in t.stored {
      assert Handoff.PendingOrLogged(t.spool.pending, t.log, id);
      if p :| p in t.spool.pending && p.identity == id {
        assert Handoff.RowKnown(w.codec, t.stored, p);
      }
    }
  }

  /** Lockstep: after any run, a client that waits for a commit response reads exactly that
      response, a client that does not wait never meets one, the reader always finds the event
      it must set, and at most one delivery is in flight. */
  lemma LockstepAlways(w: World, s: System, actions: seq<Action>)
    requires Initial(w, s) && Run(w, s, actions).Some?
    ensures var t := Run(w, s, actions).value;
            (t.client.Awaiting? && t.toCore != [] ==>
              ResponseMatches(t.toCore[0], t.client.parcel, t.client.sequence)) &&
            (t.client.Ready? && t.toCore != [] ==> !t.toCore[0].CommitResponse?) &&
            (t.bridge.BridgeOn? && t.bridge.reader.Responded? ==> t.bridge.reader.record in t.bridge.events) &&
            (forall i, j :: 0 <= i < |t.toCore| && 0 <= j < |t.toCore| && t.toCore[i].Deliver? && t.toCore[j].Deliver? ==>
              i == j) &&
            (t.client.Accepted? || t.client.Committed? ==> t.toCore == []) &&
            StreamAlternates(t.emitted)
  {
    InitialInv(w, s);
    RunKeeps(w, s, actions);
  }

  /** From t to u the bridge accepts a receipt: the row being waited for, resolved by the
      core, is the one row that leaves the spool. */
  predicate RowTaken(before: seq<Pending>, after: seq<Pending>, row: Pending) {
    exists k :: 0 <= k < |before| && before[k] == row && after == before[..k] + before[k + 1..]
  }

  ghost predicate TakesRow(t: System, u: System) {
    t.bridge.BridgeOn? && t.bridge.serial.Waiting? && u.bridge.BridgeOn? &&
    Logged(t.log, t.bridge.serial.row.identity) &&
    RowTaken(t.spool.pending, u.spool.pending, t.bridge.serial.row)
  }

  /** Receipts are never refused: in every run the receipt that reaches a running bridge names
      the pending row being waited for, and takes exactly that row out. */
  lemma ReceiptsAlwaysMatch(w: World, s: System, actions: seq<Action>)
    requires Initial(w, s) && Run(w, s, actions).Some?
    ensures var t := Run(w, s, actions).value;
            t.bridge.BridgeOn? && t.bridge.reader.Idle? && t.toBridge != [] && t.toBridge[0].CommitRequest? ==>
              TakesRow(t, ReaderReceive(w, t).value)
  {
    InitialInv(w, s);
    RunKeeps(w, s, actions);
    hide Run;
    var t := Run(w, s, actions).value;
    if t.bridge.BridgeOn? && t.bridge.reader.Idle? && t.toBridge != [] && t.toBridge[0].CommitRequest? {
      hide Inv, ReaderReceive;
      ReceiptTakesRow(w, t);
    }
  }

  lemma ReceiptTakesRow(w: World, t: System)
    requires Inv(w, t)
    requires t.bridge.BridgeOn? && t.bridge.reader.Idle? && t.toBridge != [] && t.toBridge[0].CommitRequest?
    ensures TakesRow(t, ReaderReceive(w, t).value)
  {
    ReceiptAccepted(w, t);
    assert t.toBridge[0] in t.toBridge;
    assert t.toBridge[0].receipt == ReceiptOf(t.bridge.connection, t.bridge.serial.row);
    hide Mark, Handoff.NothingLost, Paired, CoreQueue, StreamAlternates, RowsHeld;
  }
}
