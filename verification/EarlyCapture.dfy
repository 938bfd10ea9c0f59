/** When a live capture may be stored: exactly which early captures break the order in which
    captures are resolved, and why a device that waits for HELLO never sends one. */
module EarlyCapture {
  import opened Bytes
  import opened Delivery
  import opened Spool
  import opened CoreStore
  import opened Accounting
  import opened DeliverySystem
  import Handoff
  import Lockstep
  import opened ExactlyOnce
  import opened SpoolOrder

  /** The same system with nothing to hold a live capture back. */
  function Unguarded(w: World): World {
    w.(strict := false)
  }

  lemma SameInvariant(w: World, s: System)
    ensures Lockstep.Inv(w, s) <==> Lockstep.Inv(Unguarded(w), s)
  {
    hide Lockstep.Flow, WellFormed, Handoff.PendingOrLogged, Handoff.RowsKnown, Handoff.ToBridgeKnown, Handoff.SerialKnown;
  }

  /** A run that leaves a resolved capture behind an unresolved one, or an unacknowledged one that
      is not the newest. */
  ghost predicate Disorders(w: World, s: System, actions: seq<Action>) {
    Run(w, s, actions).Some? &&
    !OnlyHeadResolved(Run(w, s, actions).value.spool.pending, Run(w, s, actions).value.log)
  }

  /** The frame is stored behind another pending row, can be delivered, and there is a core to
      deliver it to. */
  predicate Overtakes(w: World, s: System, frame: seq<byte>, source: Source)
    requires s.bridge.BridgeOn?
  {
    var r := Store(w.codec, s.spool, frame, source);
    r.Stored? && !Heads(r.rows.pending, r.row) && !s.client.ClientOff? &&
    Deliverable(w.codec, ParcelOf(s.bridge.connection, r.row))
  }

  // ---------------------------------------------------------------- a capture that does not overtake

  lemma CaptureShape(w: World, s: System, frame: seq<byte>, source: Source, sequence: nat)
    requires SerialCapture(Unguarded(w), s, frame, source, sequence).Some?
    ensures s.bridge.BridgeOn? && s.bridge.serial.Reading? && DeviceMaySend(w, s, frame)
    ensures var t := SerialCapture(Unguarded(w), s, frame, source, sequence).value;
            match Store(w.codec, s.spool, frame, source)
            case StoreRefused(_) => t == DropBridge(s)
            case Stored(rows, row) =>
              t.spool == rows && t.client == s.client && t.core == s.core && t.log == s.log &&
              t.toCore == s.toCore && t.toBridge == s.toBridge &&
              t.bridge == s.bridge.(serial := Sending(row, sequence, ToReading), events := t.bridge.events)
  {
    hide Store;
  }

  lemma CaptureInv(w: World, s: System, frame: seq<byte>, source: Source, sequence: nat)
    requires Inv(w, s) && SerialCapture(Unguarded(w), s, frame, source, sequence).Some?
    ensures Lockstep.Inv(w, SerialCapture(Unguarded(w), s, frame, source, sequence).value)
  {
    hide Lockstep.Inv, SerialCapture;
    SameInvariant(w, s);
    Lockstep.StepKeeps(Unguarded(w), s, DeviceCaptures(frame, source, sequence));
    SameInvariant(w, SerialCapture(Unguarded(w), s, frame, source, sequence).value);
  }

  lemma NoRequestWhileReading(s: System)
    requires Lockstep.Flow(s) && s.bridge.BridgeOn? && s.bridge.serial.Reading?
    ensures !Lockstep.HasRequest(s.toBridge)
  {
    hide Lockstep.Paired, Lockstep.CoreQueue;
  }

  lemma HarmlessKeeps(w: World, s: System, frame: seq<byte>, source: Source, sequence: nat)
    requires Inv(w, s) && SerialCapture(Unguarded(w), s, frame, source, sequence).Some?
    requires s.bridge.BridgeOn? && !Overtakes(w, s, frame, source)
    ensures Inv(w, SerialCapture(Unguarded(w), s, frame, source, sequence).value)
  {
    var t := SerialCapture(Unguarded(w), s, frame, source, sequence).value;
    CaptureInv(w, s, frame, source, sequence);
    CaptureShape(w, s, frame, source, sequence);
    if Store(w.codec, s.spool, frame, source).Stored? {
      StoredKeepsOrder(w, s, frame, source);
      NoRequestWhileReading(s);
    } else {
      NothingLive(w, t);
    }
    hide SerialCapture, Lockstep.Inv, Store, Accounted, OnlyHeadResolved, ContextsFit, Deliverable, IsHead, Heads,
      DeviceMaySend;
  }

  // ---------------------------------------------------------------- a capture that does

  lemma {:induction false} RunConcat(w: World, s: System, a: seq<Action>, b: seq<Action>)
    requires Run(w, s, a).Some?
    ensures Run(w, s, a + b) == Run(w, Run(w, s, a).value, b)
    decreases |a|
  {
    hide Next;
    if a == [] {
      assert a + b == b;
    } else {
      assert (a + b)[0] == a[0] && (a + b)[1..] == a[1..] + b;
      RunConcat(w, Next(w, s, a[0]).value, a[1..], b);
    }
  }

  lemma RunOne(w: World, s: System, a: Action)
    requires Next(w, s, a).Some?
    ensures Run(w, s, [a]) == Next(w, s, a)
  {
    hide Next;
    assert [a][1..] == [];
  }

  /** While the bridge has yet to send, the core's client has nothing left but old frames to read. */
  lemma OnlyOldFrames(s: System)
    requires Lockstep.Flow(s) && s.bridge.BridgeOn? && s.bridge.serial.Sending? && !s.client.ClientOff?
    ensures s.toCore == [] ==> s.client.Ready?
    ensures s.toCore != [] ==>
              (s.client.Ready? && s.toCore[0].Reply?) ||
              (s.client.Awaiting? && ResponseMatches(s.toCore[0], s.client.parcel, s.client.sequence))
  {
    hide ResponseMatches, Lockstep.StreamAlternates;
  }

  function Drain(n: nat): seq<Action> {
    if n == 0 then [] else [ClientReceives] + Drain(n - 1)
  }

  lemma {:induction false} ClientCatchesUp(w: World, s: System)
    requires Lockstep.Inv(w, s) && s.bridge.BridgeOn? && s.bridge.serial.Sending? && !s.client.ClientOff?
    ensures Run(w, s, Drain(|s.toCore|)) == Some(s.(client := Ready, toCore := []))
    decreases |s.toCore|
  {
    OnlyOldFrames(s);
    if s.toCore != [] {
      var t := ClientReceive(w, s).value;
      assert t == s.(client := Ready, toCore := s.toCore[1..]);
      hide Lockstep.Inv, ResponseMatches;
      Lockstep.StepKeeps(w, s, ClientReceives);
      ClientCatchesUp(w, t);
      RunOne(w, s, ClientReceives);
      RunConcat(w, s, [ClientReceives], Drain(|t.toCore|));
    }
  }

  /** The live capture reaches the client's slot. */
  lemma LiveArrives(w: World, s: System, row: Pending, sequence: nat) returns (t: System)
    requires s.bridge.BridgeOn? && s.bridge.serial == Sending(row, sequence, ToReading)
    requires s.client == Ready && s.toCore == [] && Deliverable(w.codec, ParcelOf(s.bridge.connection, row))
    ensures Run(w, s, [SendDelivery] + [ClientReceives]) == Some(t)
    ensures t.client == Accepted(ParcelOf(s.bridge.connection, row), sequence)
    ensures t.core == s.core && t.log == s.log && t.spool == s.spool && t.stored == s.stored
  {
    var u := SerialSend(w, s).value;
    t := ClientReceive(w, u).value;
    hide Deliverable, Run;
    RunOne(w, s, SendDelivery);
    RunOne(w, u, ClientReceives);
    RunConcat(w, s, [SendDelivery], [ClientReceives]);
  }

  /** A capture never resolved before is resolved by the policy that its boot session is registered
      under, whether or not that session has ended. */
  lemma ReplayResolves(w: World, s: System)
    requires s.client.Accepted? && Accounted(w.codec, w.plan, s.log, s.core) && ContextsFit(w.plan, s.core.contexts)
    requires Deliverable(w.codec, s.client.parcel)
    requires w.codec.identity(s.client.parcel.frame).Some?
    requires var id := w.codec.identity(s.client.parcel.frame).value;
             !Logged(s.log, id) && (id.device, id.boot) in s.core.contexts
    ensures var t := ClientCommitReplay(w, s);
            t.Some? && t.value.spool == s.spool && Logged(t.value.log, w.codec.identity(s.client.parcel.frame).value)
  {
    var p := s.client.parcel;
    var id := w.codec.identity(p.frame).value;
    var context := s.core.contexts[(id.device, id.boot)];
    var e := Entry(id, context.session, p.frame);
    assert context.session != "" && context.policy == w.plan(context.session);
    UnloggedIsNew(w.codec, w.plan, s.log, s.core, id);
    if Open(s.core, context.session) {
      CommitNewAccounted(w.codec, w.plan, s.log, s.core, p, context.session, e);
    } else {
      TerminalReplayAccounted(w.codec, w.plan, s.log, s.core, p, context.session, e);
    }
    hide Accounted, ContextsFit, Deliverable, CommitDelivery, CommitTerminalReplay, FindTombstone;
    assert CommitReplayed(w.codec, s.core, p).Resolved?;
    assert e in s.log + [e];
    hide CommitReplayed;
  }

  function OneContext(w: World, id: Identity): map<(Id16, Id16), Context> {
    map[(id.device, id.boot) := Context("replayed", w.plan("replayed"))]
  }

  /** An application registers its policy, the client replays, and the capture is resolved. */
  lemma LiveResolved(w: World, s: System) returns (t: System)
    requires s.client.Accepted? && Accounted(w.codec, w.plan, s.log, s.core) && Deliverable(w.codec, s.client.parcel)
    requires w.codec.identity(s.client.parcel.frame).Some?
    requires !Logged(s.log, w.codec.identity(s.client.parcel.frame).value)
    ensures var id := w.codec.identity(s.client.parcel.frame).value;
            Run(w, s, [SetContexts(OneContext(w, id))] + [CommitReplay]) == Some(t) && Logged(t.log, id)
    ensures t.spool == s.spool
  {
    hide Accounted, Deliverable, Run, CommitReplayed, Logged;
    var id := w.codec.identity(s.client.parcel.frame).value;
    var contexts := OneContext(w, id);
    ContextsAccounted(w.codec, w.plan, s.log, s.core, contexts);
    var u := CoreContexts(w, s, contexts).value;
    ReplayResolves(w, u);
    t := ClientCommitReplay(w, u).value;
    RunOne(w, s, SetContexts(contexts));
    RunOne(w, u, CommitReplay);
    RunConcat(w, s, [SetContexts(contexts)], [CommitReplay]);
  }

  lemma RowBehind(pending: seq<Pending>, log: Log, row: Pending)
    requires row in pending && !Heads(pending, row) && Logged(log, row.identity)
    ensures !OnlyHeadResolved(pending, log)
  {
    var j :| 0 <= j < |pending| && pending[j] == row;
    assert j > 0;
  }

  /** A row that is not at the head was not resolved. */
  lemma BehindUnlogged(w: World, s: System, frame: seq<byte>, source: Source)
    requires Inv(w, s) && DeviceMaySend(w, s, frame) && Store(w.codec, s.spool, frame, source).Stored?
    ensures var r := Store(w.codec, s.spool, frame, source);
            r.row in r.rows.pending && w.codec.identity(r.row.frame) == Some(r.row.identity) &&
            (!Heads(r.rows.pending, r.row) ==> !Logged(s.log, r.row.identity))
  {
    StoredOrPending(w, s, frame, source);
    StoredRowFits(w, s, frame, source);
    hide Kept, Lockstep.Inv, LiveIsHead, Store, DeviceMaySend, UndecidedIsHead;
    var r := Store(w.codec, s.spool, frame, source);
    if r.rows == s.spool && !Heads(r.rows.pending, r.row) {
      var j :| 0 <= j < |s.spool.pending| && s.spool.pending[j] == r.row;
    }
  }

  lemma StoredRowFits(w: World, s: System, frame: seq<byte>, source: Source)
    requires Inv(w, s) && DeviceMaySend(w, s, frame) && Store(w.codec, s.spool, frame, source).Stored?
    ensures w.codec.identity(Store(w.codec, s.spool, frame, source).row.frame) ==
            Some(Store(w.codec, s.spool, frame, source).row.identity)
  {
    hide Kept, InOrder, Handoff.FlightKnown, Lockstep.Flow, Lockstep.RowsHeld, Store, DeviceMaySend;
    Handoff.CaptureStored(w, s, frame, source);
  }

  /** From the state after it, a run in which every later capture is held back properly. */
  lemma OvertakingWitness(w: World, s: System, frame: seq<byte>, source: Source, sequence: nat) returns (actions: seq<Action>)
    requires Inv(w, s) && SerialCapture(Unguarded(w), s, frame, source, sequence).Some?
    requires s.bridge.BridgeOn? && Overtakes(w, s, frame, source)
    ensures Disorders(w, SerialCapture(Unguarded(w), s, frame, source, sequence).value, actions)
  {
    var t := SerialCapture(Unguarded(w), s, frame, source, sequence).value;
    var row := Store(w.codec, s.spool, frame, source).row;
    var parcel := ParcelOf(s.bridge.connection, row);
    CaptureInv(w, s, frame, source, sequence);
    CaptureShape(w, s, frame, source, sequence);
    BehindUnlogged(w, s, frame, source);
    assert Accounted(w.codec, w.plan, t.log, t.core) by { hide Accounted, Store, InOrder, Lockstep.Inv; }
    hide SerialCapture, Lockstep.Inv, Inv, Store, Accounted, OnlyHeadResolved, Deliverable, Run, DeviceMaySend, Logged,
      Heads;
    ClientCatchesUp(w, t);
    var ready := t.(client := Ready, toCore := []);
    var arrived := LiveArrives(w, ready, row, sequence);
    var end := LiveResolved(w, arrived);
    RowBehind(end.spool.pending, end.log, row);
    var a, b := Drain(|t.toCore|), [SendDelivery] + [ClientReceives];
    var c := [SetContexts(OneContext(w, row.identity))] + [CommitReplay];
    RunConcat(w, t, a, b);
    RunConcat(w, t, a + b, c);
    actions := a + b + c;
  }

  /** The exact condition. From any state of an orderly run, let one live capture be stored
      unguarded. Some continuation, guarded again, resolves captures out of order if and only if
      that capture was stored behind another pending row and could be delivered to a core. */
  lemma OvertakingDisorders(
    w: World, s: System, before: seq<Action>, frame: seq<byte>, source: Source, sequence: nat)
    requires w.strict && Initial(w, s) && Run(w, s, before).Some?
    requires SerialCapture(Unguarded(w), Run(w, s, before).value, frame, source, sequence).Some?
    ensures var t := Run(w, s, before).value;
            var u := SerialCapture(Unguarded(w), t, frame, source, sequence).value;
            t.bridge.BridgeOn? && ((exists actions :: Disorders(w, u, actions)) <==> Overtakes(w, t, frame, source))
  {
    hide Run, Initial, Inv, SerialCapture, Overtakes;
    InitialInOrder(w, s);
    RunKeeps(w, s, before);
    var t := Run(w, s, before).value;
    var u := SerialCapture(Unguarded(w), t, frame, source, sequence).value;
    CaptureShape(w, t, frame, source, sequence);
    if Overtakes(w, t, frame, source) {
      var actions := OvertakingWitness(w, t, frame, source, sequence);
    } else {
      HarmlessKeeps(w, t, frame, source, sequence);
      forall actions ensures !Disorders(w, u, actions) {
        if Run(w, u, actions).Some? {
          RunKeeps(w, u, actions);
          InvOrder(w, Run(w, u, actions).value);
        }
      }
    }
  }

  // ---------------------------------------------------------------- a device that waits for HELLO

  /** With the spool drained before forwarding starts, a live capture is alone in it. */
  predicate Alone(b: Bridge, pending: seq<Pending>) {
    b.BridgeOn? ==>
      match b.serial
      case Reading => b.forwarding ==> pending == []
      case Sending(row, _, ToReading) => pending == [row]
      case Waiting(row, _, ToReading) => pending == (if Lockstep.Unmarked(b) then [row] else [])
      case Enabling => pending == []
      case Flushing(_) => pending == []
      case _ => true
  }

  predicate Forwarded(s: System, a: Action) {
    a.DeviceCaptures? ==> s.bridge.BridgeOn? && s.bridge.forwarding
  }

  /** Every capture of the run comes after the bridge has begun to forward commands. */
  ghost predicate CapturesForwarded(w: World, s: System, actions: seq<Action>)
    decreases |actions|
  {
    actions == [] ||
    (Forwarded(s, actions[0]) &&
     (Next(w, s, actions[0]).Some? ==> CapturesForwarded(w, Next(w, s, actions[0]).value, actions[1..])))
  }

  lemma SameStep(w: World, s: System, a: Action)
    requires Alone(s.bridge, s.spool.pending) && Forwarded(s, a)
    ensures Next(w.(strict := true), s, a) == Next(Unguarded(w), s, a)
  {
    hide CommitDelivery, CommitReplayed, FinalizeSession, FindTombstone, Deliverable, Mark, ContextsFit, SummaryPolicy,
      Lockstep.Unmarked;
  }

  lemma AloneAfterReceipt(w: World, s: System)
    requires Lockstep.Inv(w, s) && Alone(s.bridge, s.spool.pending)
    requires ReaderReceive(w, s).Some? && s.toBridge[0].CommitRequest?
    ensures var t := ReaderReceive(w, s).value; Alone(t.bridge, t.spool.pending)
  {
    Lockstep.ReceiptTakesRow(w, s);
    NowMarked(w, s);
    hide Mark, Lockstep.Inv, ReaderReceive;
    var t := ReaderReceive(w, s).value;
    var k :| 0 <= k < |s.spool.pending| && s.spool.pending[k] == s.bridge.serial.row &&
      t.spool.pending == s.spool.pending[..k] + s.spool.pending[k + 1..];
  }

  lemma NowMarked(w: World, s: System)
    requires Lockstep.Inv(w, s) && ReaderReceive(w, s).Some? && s.toBridge[0].CommitRequest?
    ensures s.bridge.serial.Waiting? && Lockstep.Unmarked(s.bridge)
    ensures var t := ReaderReceive(w, s).value;
            t.bridge.BridgeOn? ==> t.bridge.serial == s.bridge.serial && !Lockstep.Unmarked(t.bridge)
  {
    hide Mark, Handoff.Inv, Lockstep.RowsHeld, Lockstep.Paired, Lockstep.CoreQueue, Lockstep.StreamAlternates;
  }

  lemma AloneSerial(w: World, s: System, a: Action)
    requires Alone(s.bridge, s.spool.pending) && Forwarded(s, a) && Next(w, s, a).Some?
    requires s.bridge.BridgeOn? ==> Lockstep.BridgeLocal(s.bridge)
    requires a.DeviceCaptures? || a.QuerySpool? || a.NextReplay? || a.EnableForwarding? || a.FlushOne? || a.Connect? ||
             a.DeviceReplies? || a.SendDelivery? || a.ResumeSerial?
    ensures var t := Next(w, s, a).value; Alone(t.bridge, t.spool.pending)
  {
    hide Deliverable, DeviceMaySend;
  }

  lemma AloneOthers(w: World, s: System, a: Action)
    requires Alone(s.bridge, s.spool.pending) && Next(w, s, a).Some?
    requires s.bridge.BridgeOn? ==> Lockstep.BridgeLocal(s.bridge)
    requires !(a.DeviceCaptures? || a.QuerySpool? || a.NextReplay? || a.EnableForwarding? || a.FlushOne? || a.Connect? ||
               a.DeviceReplies? || a.SendDelivery? || a.ResumeSerial?)
    requires a.ReaderReceives? ==> s.toBridge != [] && s.toBridge[0].Forward?
    ensures var t := Next(w, s, a).value; Alone(t.bridge, t.spool.pending)
  {
    hide CommitDelivery, CommitReplayed, FinalizeSession, FindTombstone, Deliverable, Mark, ContextsFit, SummaryPolicy;
  }

  lemma AloneStep(w: World, s: System, a: Action)
    requires Lockstep.Inv(w, s) && Alone(s.bridge, s.spool.pending) && Forwarded(s, a) && Next(w, s, a).Some?
    ensures var t := Next(w, s, a).value; Alone(t.bridge, t.spool.pending)
  {
    hide Alone, Handoff.Inv, ReaderReceive, Forwarded;
    if a.ReaderReceives? {
      ReceiveShape(w, s);
      if s.toBridge[0].CommitRequest? {
        AloneAfterReceipt(w, s);
      } else {
        AloneOthers(w, s, a);
      }
    } else if a.DeviceCaptures? || a.QuerySpool? || a.NextReplay? || a.EnableForwarding? || a.FlushOne? || a.Connect? ||
              a.DeviceReplies? || a.SendDelivery? || a.ResumeSerial? {
      AloneSerial(w, s, a);
    } else {
      AloneOthers(w, s, a);
    }
    hide Next;
  }

  lemma ReceiveShape(w: World, s: System)
    ensures ReaderReceive(w, s).Some? ==> s.toBridge != []
  {
    hide Mark;
  }

  lemma {:induction false} SameRun(w: World, s: System, actions: seq<Action>)
    requires Lockstep.Inv(Unguarded(w), s) && Alone(s.bridge, s.spool.pending)
    requires CapturesForwarded(Unguarded(w), s, actions)
    ensures Run(w.(strict := true), s, actions) == Run(Unguarded(w), s, actions)
    decreases |actions|
  {
    hide Next, Alone, Lockstep.Inv, Forwarded;
    if actions != [] {
      SameStep(w, s, actions[0]);
      if Next(Unguarded(w), s, actions[0]).Some? {
        Lockstep.StepKeeps(Unguarded(w), s, actions[0]);
        AloneStep(Unguarded(w), s, actions[0]);
        SameRun(w, Next(Unguarded(w), s, actions[0]).value, actions[1..]);
      }
    }
  }

  /** A device that sends captures only once commands are forwarded, that is after HELLO was answered
      and the spool was drained, needs no guard: its unguarded runs are guarded runs, so they resolve
      captures in order and never forget one. */
  lemma WaitingForHelloSuffices(w: World, s: System, actions: seq<Action>)
    requires Initial(w, s) && CapturesForwarded(Unguarded(w), s, actions)
    ensures Run(w.(strict := true), s, actions) == Run(Unguarded(w), s, actions)
    ensures var t := Run(Unguarded(w), s, actions);
            t.Some? ==> OnlyHeadResolved(t.value.spool.pending, t.value.log) && !Forgets(Unguarded(w), s, actions)
  {
    Lockstep.InitialInv(w, s);
    SameInvariant(w, s);
    hide Lockstep.Inv, Run, CapturesForwarded, OnlyHeadResolved, Forgets, Accounted, DistinctEntries;
    SameRun(w, s, actions);
    if Run(Unguarded(w), s, actions).Some? {
      ResolvedInOrder(w.(strict := true), s, actions);
      ResolvedExactlyOnce(w.(strict := true), s, actions);
      ResolvedExactlyOnce(Unguarded(w), s, actions);
    }
  }
}
