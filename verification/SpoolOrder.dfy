/** The order of resolution when a live capture never overtakes a pending one: only the oldest
    pending capture can be resolved and not yet acknowledged. */
module SpoolOrder {
  import opened Bytes
  import opened Delivery
  import opened Spool
  import opened CoreStore
  import opened Accounting
  import opened DeliverySystem
  import opened ExactlyOnce
  import Handoff
  import Lockstep

  /** Only the oldest pending capture can be resolved and not yet acknowledged, and then it
      is the newest one the core resolved. */
  ghost predicate OnlyHeadResolved(pending: seq<Pending>, log: Log) {
    (forall i :: 0 < i < |pending| ==> !Logged(log, pending[i].identity)) &&
    (pending != [] && Logged(log, pending[0].identity) ==> log[|log| - 1].identity == pending[0].identity)
  }

  /** Nobody will answer what is on the stream, and no receipt is on its way. */
  predicate Unheard(s: System) {
    s.client.ClientOff? && !Lockstep.HasRequest(s.toBridge)
  }

  /** The live capture being delivered is the oldest pending row, or cannot reach the core. */
  predicate LiveIsHead(w: World, s: System) {
    s.bridge.BridgeOn? ==>
      match s.bridge.serial
      case Sending(row, _, ToReading) =>
        Heads(s.spool.pending, row) || Unheard(s) || !Deliverable(w.codec, ParcelOf(s.bridge.connection, row))
      case Waiting(row, _, ToReading) => Lockstep.Unmarked(s.bridge) ==> Heads(s.spool.pending, row) || Unheard(s)
      case _ => true
  }

  predicate IsHead(pending: seq<Pending>, p: Parcel) {
    pending != [] && pending[0].record == p.record && pending[0].frame == p.frame
  }

  /** An undecided parcel, on the stream or in the client's slot, is the oldest pending row. */
  predicate UndecidedIsHead(toCore: seq<ToCore>, client: Client, pending: seq<Pending>) {
    (forall m :: m in toCore && m.Deliver? ==> IsHead(pending, m.parcel)) &&
    (client.Accepted? ==> IsHead(pending, client.parcel))
  }

  ghost predicate InOrder(w: World, s: System) {
    OnlyHeadResolved(s.spool.pending, s.log) && LiveIsHead(w, s) &&
    UndecidedIsHead(s.toCore, s.client, s.spool.pending)
  }

  ghost predicate Inv(w: World, s: System) {
    Lockstep.Inv(w, s) && Kept(w, s) && InOrder(w, s)
  }

  // ---------------------------------------------------------------- commits

  /** A logged identity at the head of the spool still has its tombstone. */
  lemma HeadRemembered(w: World, s: System, p: Parcel)
    requires Inv(w, s) && IsHead(s.spool.pending, p)
    ensures w.codec.identity(p.frame) == Some(s.spool.pending[0].identity)
    ensures !Forgotten(s, s.spool.pending[0].identity)
  {
    assert s.spool.pending[0] in s.spool.pending;
    assert RowFits(w.codec, s.spool.pending[0]);
    if Logged(s.log, s.spool.pending[0].identity) {
      NewestRemembered(w.codec, w.plan, s.log, s.core);
    }
  }

  lemma NotForgetful(w: World, s: System, a: Action)
    requires Inv(w, s)
    ensures !Forgetful(w, s, a)
  {
    hide Lockstep.Inv, Kept, OnlyHeadResolved, LiveIsHead, Next, Forgotten;
    if Forgetful(w, s, a) {
      HeadRemembered(w, s, s.client.parcel);
    }
  }

  lemma CommitLog(w: World, s: System, session: SessionId)
    requires Inv(w, s) && s.client.Accepted?
    ensures w.codec.identity(s.client.parcel.frame).Some?
    ensures OnlyHeadResolved(s.spool.pending, LogAfter(w, s, s.client.parcel, session))
  {
    HeadRemembered(w, s, s.client.parcel);
    var log := LogAfter(w, s, s.client.parcel, session);
    hide Accounted, LiveIsHead;
    forall i | 0 < i < |s.spool.pending| ensures !Logged(log, s.spool.pending[i].identity) {
      assert s.spool.pending[0].identity != s.spool.pending[i].identity;
      assert !Logged(s.log, s.spool.pending[i].identity);
    }
  }

  /** A commit changes the core's side only: the client's slot, the tables and the log. */
  predicate CommitFrame(s: System, t: System) {
    t == s.(core := t.core, log := t.log, client := t.client) && (t.client == s.client || t.client.Committed?)
  }

  lemma CommitFrames(w: World, s: System, a: Action)
    requires Next(w, s, a).Some? && (a.CommitLive? || a.CommitReplay?)
    ensures s.client.Accepted? && CommitFrame(s, Next(w, s, a).value)
  {
    hide CommitDelivery, CommitReplayed, LogAfter;
  }

  lemma CommitStep(w: World, s: System, a: Action)
    requires Inv(w, s) && Next(w, s, a).Some? && (a.CommitLive? || a.CommitReplay?)
    ensures InOrder(w, Next(w, s, a).value)
  {
    var t := Next(w, s, a).value;
    if a.CommitLive? {
      LiveDoes(w, s, a.session);
      CommitLog(w, s, a.session);
    } else {
      ReplayDoes(w, s);
      CommitLog(w, s, ContextSession(w, s));
    }
    CommitFrames(w, s, a);
    hide Next, Lockstep.Inv, Kept, OnlyHeadResolved, CommitDelivery, CommitReplayed, ContextSession, LogAfter, IsHead,
      Deliverable, Heads;
  }

  // ---------------------------------------------------------------- the other steps

  lemma SessionStep(w: World, s: System, a: Action)
    requires InOrder(w, s) && Next(w, s, a).Some? && (a.SaveSession? || a.EndSession? || a.SetContexts?)
    ensures InOrder(w, Next(w, s, a).value)
  {
    hide OnlyHeadResolved, UndecidedIsHead, Deliverable, Heads, FinalizeSession, ContextsFit, SummaryPolicy;
  }

  /** A live capture is new, or the row that is pending already. */
  lemma StoredOrPending(w: World, s: System, frame: seq<byte>, source: Source)
    requires Inv(w, s) && DeviceMaySend(w, s, frame) && Store(w.codec, s.spool, frame, source).Stored?
    ensures var r := Store(w.codec, s.spool, frame, source);
            (r.rows == s.spool && r.row in s.spool.pending) ||
            (r.rows.pending == s.spool.pending + [r.row] && !Logged(s.log, r.row.identity))
  {
    hide Kept, Handoff.FlightKnown, Lockstep.Flow, LiveIsHead, UndecidedIsHead, OnlyHeadResolved;
    var id := w.codec.identity(frame).value;
    if FindIdentity(s.spool.pending, id).None? {
      assert id !in s.stored;
    }
  }

  /** Wherever it is stored, the spool's order is kept for now. */
  lemma StoredKeepsOrder(w: World, s: System, frame: seq<byte>, source: Source)
    requires Inv(w, s) && DeviceMaySend(w, s, frame) && Store(w.codec, s.spool, frame, source).Stored?
    ensures var r := Store(w.codec, s.spool, frame, source);
            OnlyHeadResolved(r.rows.pending, s.log) && UndecidedIsHead(s.toCore, s.client, r.rows.pending)
  {
    StoredOrPending(w, s, frame, source);
    hide Kept, Lockstep.Inv, LiveIsHead, Store, DeviceMaySend;
    var pending := Store(w.codec, s.spool, frame, source).rows.pending;
    forall i | 0 <= i < |s.spool.pending| ensures pending[i] == s.spool.pending[i] {
    }
  }

  /** A live capture enters the spool at its head, and was never resolved before unless it was
      pending there already. */
  lemma CaptureStep(w: World, s: System, frame: seq<byte>, source: Source, sequence: nat)
    requires Inv(w, s) && w.strict && SerialCapture(w, s, frame, source, sequence).Some?
    ensures InOrder(w, SerialCapture(w, s, frame, source, sequence).value)
  {
    if Store(w.codec, s.spool, frame, source).Stored? {
      StoredKeepsOrder(w, s, frame, source);
    } else {
      NothingLive(w, DropBridge(s));
    }
    hide Kept, Lockstep.Inv, Store, DeviceMaySend, OnlyHeadResolved, IsHead;
  }

  lemma NothingLive(w: World, s: System)
    requires s.bridge.BridgeOff?
    ensures LiveIsHead(w, s)
  {
  }

  lemma HeadTaken(w: World, s: System)
    requires Inv(w, s) && s.bridge.BridgeOn? && s.toBridge != [] && s.toBridge[0].CommitRequest?
    ensures s.bridge.serial.Waiting? && s.spool.pending != [] && s.spool.pending[0] == s.bridge.serial.row
    ensures Mark(s.spool, s.toBridge[0].receipt, w.limit).MarkedAs?
    ensures Mark(s.spool, s.toBridge[0].receipt, w.limit).rows.pending == s.spool.pending[1..]
  {
    Lockstep.ReceiptAccepted(w, s);
    Lockstep.HeldRowFits(w, s);
    hide Kept, Mark, Accounted, Lockstep.StreamAlternates, Handoff.FlightKnown, OnlyHeadResolved, UndecidedIsHead;
    var r := Mark(s.spool, s.toBridge[0].receipt, w.limit);
    var k :| 0 <= k < |s.spool.pending| && s.spool.pending[k] == s.bridge.serial.row &&
      r.rows.pending == s.spool.pending[..k] + s.spool.pending[k + 1..] &&
      (s.bridge.serial.resume.ToReplay? ==> k == 0);
    if s.bridge.serial.resume.ToReading? {
      assert Heads(s.spool.pending, s.bridge.serial.row);
      assert Ordered(s.spool.pending);
      assert k == 0;
    }
    assert s.spool.pending[..0] + s.spool.pending[1..] == s.spool.pending[1..];
  }

  lemma RestUnresolved(w: World, s: System)
    requires Handoff.NothingLost(w, s) && OnlyHeadResolved(s.spool.pending, s.log) && s.spool.pending != []
    ensures OnlyHeadResolved(s.spool.pending[1..], s.log)
  {
    forall i | 0 <= i < |s.spool.pending| - 1 ensures !Logged(s.log, s.spool.pending[1..][i].identity) {
      assert s.spool.pending[1..][i] == s.spool.pending[i + 1];
    }
  }

  lemma NoUndecided(w: World, s: System)
    requires Inv(w, s) && s.bridge.BridgeOn? && s.bridge.reader.Idle? && s.toBridge != [] && s.toBridge[0].CommitRequest?
    ensures s.toCore == [] && !s.client.Accepted?
  {
    hide Kept, Handoff.Inv, Lockstep.RowsHeld, Lockstep.StreamAlternates;
  }

  /** Acknowledging a capture exposes the next one, which is not resolved. */
  lemma AcknowledgeStep(w: World, s: System)
    requires Inv(w, s) && ReaderReceive(w, s).Some? && s.toBridge[0].CommitRequest?
    ensures InOrder(w, ReaderReceive(w, s).value)
  {
    HeadTaken(w, s);
    NoUndecided(w, s);
    RestUnresolved(w, s);
    assert Lockstep.Unmarked(s.bridge);
    hide Kept, OnlyHeadResolved, Lockstep.Inv, Mark;
  }

  lemma CommandStep(w: World, s: System)
    requires InOrder(w, s) && ReaderReceive(w, s).Some? && s.toBridge[0].Forward?
    ensures InOrder(w, ReaderReceive(w, s).value)
  {
    hide Kept, OnlyHeadResolved, Mark, UndecidedIsHead, Deliverable;
    assert forall i :: 0 <= i < |s.toBridge| - 1 ==> s.toBridge[1..][i] == s.toBridge[i + 1];
    NothingLive(w, DropBridge(s));
  }

  lemma SendStep(w: World, s: System)
    requires Inv(w, s) && SerialSend(w, s).Some?
    ensures InOrder(w, SerialSend(w, s).value)
  {
    hide Kept, Deliverable, Handoff.Inv, OnlyHeadResolved;
    var row := s.bridge.serial.row;
    if s.bridge.serial.resume.ToReplay? {
      assert ([row] + s.bridge.serial.resume.rest)[0] == row;
    }
    assert !Lockstep.Busy(s.bridge.reader) && s.bridge.events == map[row.record := false];
    hide Kept, Lockstep.Inv;
  }

  lemma ResumeStep(w: World, s: System)
    requires Inv(w, s) && SerialResume(s).Some?
    ensures InOrder(w, SerialResume(s).value)
  {
    hide Kept, OnlyHeadResolved, UndecidedIsHead, Lockstep.Inv;
  }

  lemma SerialStep(w: World, s: System, a: Action)
    requires InOrder(w, s) && Next(w, s, a).Some?
    requires a.QuerySpool? || a.NextReplay? || a.EnableForwarding? || a.FlushOne? || a.Connect? || a.DeviceReplies?
    ensures InOrder(w, Next(w, s, a).value)
  {
    hide Kept, OnlyHeadResolved, IsHead;
  }

  lemma ReaderStep(w: World, s: System, a: Action)
    requires InOrder(w, s) && Next(w, s, a).Some? && (a.ReaderResponds? || a.ReaderSignals? || a.ReaderWrites?)
    requires s.bridge.BridgeOn? ==> Lockstep.BridgeLocal(s.bridge)
    ensures InOrder(w, Next(w, s, a).value)
  {
    hide Kept, OnlyHeadResolved, IsHead, Deliverable, Heads;
  }

  lemma ClientStep(w: World, s: System, a: Action)
    requires Inv(w, s) && Next(w, s, a).Some?
    requires a.BridgeDrops? || a.ClientDrops? || a.ClientSends? || a.ClientReceives? || a.ClientConfirms?
    ensures InOrder(w, Next(w, s, a).value)
  {
    hide Kept, OnlyHeadResolved, IsHead, Deliverable, Heads;
    if a.ClientReceives? {
      assert s.toCore[0] in s.toCore && forall m :: m in s.toCore[1..] ==> m in s.toCore;
    }
  }

  lemma StepKeeps(w: World, s: System, a: Action)
    requires Inv(w, s) && w.strict && Next(w, s, a).Some?
    ensures Inv(w, Next(w, s, a).value)
  {
    Lockstep.StepKeeps(w, s, a);
    NotForgetful(w, s, a);
    StepKept(w, s, a);
    hide InOrder, Lockstep.Inv, Kept, SerialCapture, SerialSend, SerialResume, ReaderReceive, CoreSave, CoreEnd, CoreContexts,
      ClientCommitLive, ClientCommitReplay, Connected, SerialReply, SerialQuery, SerialNext, SerialEnable, SerialFlush,
      ReaderRespond, ReaderSignal, ReaderWrite, ClientSend, ClientReceive, ClientConfirm;
    match a
    case CommitLive(_) => CommitStep(w, s, a);
    case CommitReplay => CommitStep(w, s, a);
    case SaveSession(_, _) => SessionStep(w, s, a);
    case EndSession(_, _) => SessionStep(w, s, a);
    case SetContexts(_) => SessionStep(w, s, a);
    case DeviceCaptures(frame, source, sequence) => CaptureStep(w, s, frame, source, sequence);
    case ReaderReceives =>
      if s.toBridge[0].CommitRequest? { AcknowledgeStep(w, s); } else { CommandStep(w, s); }
    case SendDelivery => SendStep(w, s);
    case ResumeSerial => ResumeStep(w, s);
    case QuerySpool => SerialStep(w, s, a);
    case NextReplay => SerialStep(w, s, a);
    case EnableForwarding => SerialStep(w, s, a);
    case FlushOne => SerialStep(w, s, a);
    case Connect(_) => SerialStep(w, s, a);
    case DeviceReplies(_) => SerialStep(w, s, a);
    case ReaderResponds => ReaderStep(w, s, a);
    case ReaderSignals => ReaderStep(w, s, a);
    case ReaderWrites => ReaderStep(w, s, a);
    case _ => ClientStep(w, s, a);
  }

  lemma InitialInOrder(w: World, s: System)
    requires Initial(w, s)
    ensures Inv(w, s)
  {
    Lockstep.InitialInv(w, s);
    InitialKept(w, s);
  }

  lemma {:induction false} RunKeeps(w: World, s: System, actions: seq<Action>)
    requires Inv(w, s) && w.strict && Run(w, s, actions).Some?
    ensures Inv(w, Run(w, s, actions).value)
    decreases |actions|
  {
    hide Kept, Inv, Next;
    if actions != [] {
      StepKeeps(w, s, actions[0]);
      RunKeeps(w, Next(w, s, actions[0]).value, actions[1..]);
    }
  }

  lemma {:induction false} NothingForgotten(w: World, s: System, actions: seq<Action>)
    requires Inv(w, s) && w.strict
    ensures !Forgets(w, s, actions)
    decreases |actions|
  {
    hide Inv, Next, Forgetful;
    if actions != [] {
      NotForgetful(w, s, actions[0]);
      if Next(w, s, actions[0]).Some? {
        StepKeeps(w, s, actions[0]);
        NothingForgotten(w, Next(w, s, actions[0]).value, actions[1..]);
      }
    }
  }

  lemma InvOrder(w: World, s: System)
    requires Inv(w, s)
    ensures OnlyHeadResolved(s.spool.pending, s.log)
    ensures s.spool.pending != [] ==> !Forgotten(s, s.spool.pending[0].identity)
  {
    hide Lockstep.Inv, Kept, OnlyHeadResolved, Forgotten;
    if s.spool.pending != [] {
      var row := s.spool.pending[0];
      HeadRemembered(w, s, Parcel(0, row.record, row.source, row.frame));
    }
  }

  /** In every run in which no live capture overtakes a pending one: only the oldest pending capture
      can be resolved already, it is then the newest resolution of all and still on record, and so
      nothing is ever forgotten, however long the run. */
  lemma ResolvedInOrder(w: World, s: System, actions: seq<Action>)
    requires Initial(w, s) && w.strict && Run(w, s, actions).Some?
    ensures var t := Run(w, s, actions).value;
            OnlyHeadResolved(t.spool.pending, t.log) && !Forgets(w, s, actions) &&
            (t.spool.pending != [] && Logged(t.log, t.spool.pending[0].identity) ==>
              FindTombstone(t.core.tombs, t.spool.pending[0].identity).Some?)
  {
    InitialInOrder(w, s);
    RunKeeps(w, s, actions);
    NothingForgotten(w, s, actions);
    hide Run, Initial, Inv, OnlyHeadResolved, Forgets, FindTombstone, Logged;
    InvOrder(w, Run(w, s, actions).value);
  }
}
