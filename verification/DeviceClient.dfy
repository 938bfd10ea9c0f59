/** The core's end of the stream as an object: one pending delivery at a time, a transaction before
    every receipt, and one response read for it. */
module DeviceClient {
  import opened Bytes
  import opened Delivery
  import opened CoreStore
  import opened DeliverySystem
  import opened CaptureStoreObject
  import opened Accounting
  import Handoff
  import Spool
  import Lockstep
  import History

  /** The pending slot after the next frame; ClientOff is the raised error that closes the link. */
  function Received(codec: Codec, c: Client, m: ToCore): Client {
    match c
    case Ready =>
      (match m
       case Reply(_) => Ready
       case Deliver(parcel, sequence) => if Deliverable(codec, parcel) then Accepted(parcel, sequence) else ClientOff
       case CommitResponse(_, _, _, _) => ClientOff)
    case Awaiting(parcel, _, sequence) => if ResponseMatches(m, parcel, sequence) then Ready else ClientOff
    case _ => c
  }

  /** The slot after a transaction: a refused one leaves the delivery undecided. */
  function Decided(c: Client, outcome: Outcome): Client
    requires c.Accepted?
  {
    match outcome
    case Refused(_) => c
    case Resolved(_, receipt, _, _) => Committed(c.parcel, receipt, c.sequence)
  }

  class BridgeDeviceClient {
    const store: CaptureStore
    var slot: Client

    constructor (store: CaptureStore)
      ensures this.store == store && slot == Ready
    {
      this.store, slot := store, Ready;
    }

    /** _send: nothing but a receipt while a delivery is pending. */
    method Send(command: Command) returns (sent: Option<ToBridge>)
      ensures sent == if slot == Ready then Some(Forward(command)) else None
    {
      return if slot.Ready? then Some(Forward(command)) else None;
    }

    /** One frame from the bridge: a reply, a delivery to decide, or the awaited response. */
    method Receive(m: ToCore)
      modifies this`slot
      ensures slot == Received(store.codec, old(slot), m)
    {
      hide Deliverable;
      if slot.Ready? {
        if m.Deliver? {
          slot := if Deliverable(store.codec, m.parcel) then Accepted(m.parcel, m.sequence) else ClientOff;
        } else if m.CommitResponse? {
          slot := ClientOff;
        }
      } else if slot.Awaiting? {
        var matches := m.CommitResponse? && m.sequence == slot.sequence &&
          m.connection == slot.parcel.connection && m.record == slot.parcel.record;
        slot := if matches then Ready else ClientOff;
      }
    }

    /** _persist_capture: the transaction comes first, whatever happens next. */
    method PersistLive(policy: SavePolicy, session: SessionId) returns (outcome: Outcome)
      requires slot.Accepted?
      modifies this`slot, store
      ensures outcome == CoreStore.CommitDelivery(store.codec, old(store.State()), old(slot).parcel, policy, session)
      ensures store.State() == if outcome.Resolved? then outcome.tables else old(store.State())
      ensures slot == Decided(old(slot), outcome)
    {
      outcome := store.CommitDelivery(slot.parcel, policy, session);
      if outcome.Resolved? {
        slot := Committed(slot.parcel, outcome.receipt, slot.sequence);
      }
    }

    method PersistReplay() returns (outcome: Outcome)
      requires slot.Accepted?
      modifies this`slot, store
      ensures outcome == CommitReplayed(store.codec, old(store.State()), old(slot).parcel)
      ensures store.State() == if outcome.Resolved? then outcome.tables else old(store.State())
      ensures slot == Decided(old(slot), outcome)
    {
      outcome := store.CommitReplayedDelivery(slot.parcel);
      if outcome.Resolved? {
        slot := Committed(slot.parcel, outcome.receipt, slot.sequence);
      }
    }

    /** confirm_capture: the receipt of the transaction, under the delivery's sequence. */
    method Confirm() returns (request: ToBridge)
      requires slot.Committed?
      modifies this`slot
      ensures request == CommitRequest(old(slot).receipt, old(slot).sequence)
      ensures slot == Awaiting(old(slot).parcel, old(slot).receipt, old(slot).sequence)
    {
      request := CommitRequest(slot.receipt, slot.sequence);
      slot := Awaiting(slot.parcel, slot.receipt, slot.sequence);
    }
  }

  // ---------------------------------------------------------------- what the slot guarantees over runs

  predicate Holds(c: Client) {
    c.Accepted? || c.Committed? || c.Awaiting?
  }

  /** The two ways out of a held delivery: its own commit response, or the link going down. */
  predicate Releases(s: System, a: Action)
    requires Holds(s.client)
  {
    a.ClientDrops? ||
    (a.ClientReceives? && s.client.Awaiting? && s.toCore != [] &&
     ResponseMatches(s.toCore[0], s.client.parcel, s.client.sequence))
  }

  predicate SameDelivery(s: System, t: System)
    requires Holds(s.client)
  {
    Holds(t.client) && t.client.parcel == s.client.parcel && t.client.sequence == s.client.sequence && t.sent == s.sent
  }

  lemma ResponseIsOurs(w: World, s: System)
    requires Lockstep.Inv(w, s) && s.client.Awaiting? && s.toCore != []
    ensures ResponseMatches(s.toCore[0], s.client.parcel, s.client.sequence)
  {
    hide Handoff.Inv;
  }

  /** Transactions and receipts keep the delivery, and nothing else can be sent. */
  lemma ClientKeepsSlot(w: World, s: System, a: Action)
    requires Next(w, s, a).Some? && Holds(s.client)
    requires a.CommitLive? || a.CommitReplay? || a.ClientConfirms? || a.ClientSends?
    ensures SameDelivery(s, Next(w, s, a).value)
  {
    hide CoreStore.CommitDelivery, CommitReplayed, Deliverable, FindTombstone;
  }

  lemma BridgeKeepsSlot(w: World, s: System, a: Action)
    requires Next(w, s, a).Some? && Holds(s.client)
    requires !(a.CommitLive? || a.CommitReplay? || a.ClientConfirms? || a.ClientSends? || a.ClientReceives? || a.ClientDrops?)
    ensures SameDelivery(s, Next(w, s, a).value)
  {
    hide CoreStore.FinalizeSession, Deliverable, Spool.Store, Spool.Mark, ContextsFit, DeviceMaySend;
  }

  lemma SlotKept(w: World, s: System, a: Action)
    requires Lockstep.Inv(w, s) && Next(w, s, a).Some? && Holds(s.client)
    ensures SameDelivery(s, Next(w, s, a).value) || Releases(s, a)
  {
    if a.ClientReceives? {
      if s.client.Awaiting? && s.toCore != [] {
        ResponseIsOurs(w, s);
      }
    } else if !a.ClientDrops? {
      hide *;
      if a.CommitLive? || a.CommitReplay? || a.ClientConfirms? || a.ClientSends? {
        ClientKeepsSlot(w, s, a);
      } else {
        BridgeKeepsSlot(w, s, a);
      }
    }
    hide Lockstep.Inv, Deliverable, ResponseMatches;
  }

  lemma {:induction false} ReleasedFirst(w: World, s: System, actions: seq<Action>) returns (i: nat)
    requires Lockstep.Inv(w, s) && Holds(s.client) && Run(w, s, actions).Some?
    requires !SameDelivery(s, Run(w, s, actions).value)
    ensures i < |actions| && Run(w, s, actions[..i]).Some?
    ensures var m := Run(w, s, actions[..i]).value; SameDelivery(s, m) && Releases(m, actions[i])
    decreases |actions|
  {
    hide Lockstep.Inv, Next, Releases;
    var t := Next(w, s, actions[0]).value;
    SlotKept(w, s, actions[0]);
    if Releases(s, actions[0]) {
      i := 0;
      assert actions[..0] == [];
    } else {
      Lockstep.StepKeeps(w, s, actions[0]);
      i := ReleasedFirst(w, t, actions[1..]);
      History.RunPrefix(w, s, actions, i);
      i := i + 1;
    }
  }

  /** A core that holds a delivery sends nothing else: if it sends a command later in the run, or
      takes another delivery, it was first released by the response to this very delivery's
      receipt, or its link went down. */
  lemma PendingBlocksCommands(w: World, s: System, before: seq<Action>, after: seq<Action>) returns (i: nat)
    requires Initial(w, s) && Run(w, s, before).Some? && Holds(Run(w, s, before).value.client)
    requires Run(w, Run(w, s, before).value, after).Some?
    requires !SameDelivery(Run(w, s, before).value, Run(w, Run(w, s, before).value, after).value)
    ensures var t := Run(w, s, before).value;
            i < |after| && Run(w, t, after[..i]).Some? &&
            (var m := Run(w, t, after[..i]).value; SameDelivery(t, m) && Releases(m, after[i]))
  {
    hide Run, Initial, Lockstep.Inv, Releases, SameDelivery, Holds;
    Lockstep.InitialInv(w, s);
    Lockstep.RunKeeps(w, s, before);
    i := ReleasedFirst(w, Run(w, s, before).value, after);
  }

  /** The transaction comes before the receipt, in every run: a receipt about to be sent is for a
      capture resolved with exactly the delivered bytes, and so is every receipt on the stream. */
  lemma ReceiptsAreResolved(w: World, s: System, actions: seq<Action>)
    requires Initial(w, s) && Run(w, s, actions).Some?
    ensures var t := Run(w, s, actions).value;
            (t.client.Committed? ==>
              w.codec.identity(t.client.parcel.frame).Some? && t.client.receipt == ReceiptFor(w.codec, t.client.parcel) &&
              exists e :: e in t.log && e.identity == t.client.receipt.identity && e.frame == t.client.parcel.frame) &&
            (forall m :: m in t.toBridge && m.CommitRequest? ==> Logged(t.log, m.receipt.identity))
  {
    hide Run, Initial, Lockstep.Inv, Handoff.Inv;
    Lockstep.InitialInv(w, s);
    Lockstep.RunKeeps(w, s, actions);
    var t := Run(w, s, actions).value;
    History.InvKnows(w, t);
    FlightResolved(w, t);
  }

  lemma FlightResolved(w: World, t: System)
    requires Handoff.Inv(w, t)
    ensures t.client.Committed? ==>
              w.codec.identity(t.client.parcel.frame).Some? && t.client.receipt == ReceiptFor(w.codec, t.client.parcel) &&
              exists e :: e in t.log && e.identity == t.client.receipt.identity && e.frame == t.client.parcel.frame
    ensures forall m :: m in t.toBridge && m.CommitRequest? ==> Logged(t.log, m.receipt.identity)
  {
    if t.client.Committed? {
      var e :| e in t.log && e.identity == t.client.receipt.identity;
    }
  }
}
