/** What was stored and what was resolved is never taken back. */
module History {
  import opened Bytes
  import opened Delivery
  import opened Spool
  import opened CoreStore
  import opened Accounting
  import opened DeliverySystem
  import Handoff
  import Lockstep

  /** t remembers everything s does: the log continues it, and stored frames keep their bytes. */
  ghost predicate Continues(s: System, t: System) {
    s.log <= t.log && forall id :: id in s.stored ==> id in t.stored && t.stored[id] == s.stored[id]
  }

  lemma CaptureContinues(w: World, s: System, frame: seq<byte>, source: Source, sequence: nat)
    requires Handoff.NothingLost(w, s) && SerialCapture(w, s, frame, source, sequence).Some?
    ensures Continues(s, SerialCapture(w, s, frame, source, sequence).value)
  {
    hide Handoff.NothingLost, Store;
    if Store(w.codec, s.spool, frame, source).Stored? {
      Handoff.CaptureLosesNothing(w, s, frame, source, SerialCapture(w, s, frame, source, sequence).value);
    }
  }

  lemma CommitContinues(w: World, s: System, session: SessionId)
    ensures ClientCommitLive(w, s, session).Some? ==> Continues(s, ClientCommitLive(w, s, session).value)
    ensures ClientCommitReplay(w, s).Some? ==> Continues(s, ClientCommitReplay(w, s).value)
  {
    hide CommitDelivery, CommitReplayed, FindTombstone;
  }

  lemma SameHistory(s: System, t: System)
    requires t.log == s.log && t.stored == s.stored
    ensures Continues(s, t)
  {
  }

  lemma StepContinues(w: World, s: System, a: Action)
    requires Handoff.NothingLost(w, s) && Next(w, s, a).Some?
    ensures Continues(s, Next(w, s, a).value)
  {
    hide Handoff.NothingLost, Continues, Store, Mark, SerialCapture, ClientCommitLive, ClientCommitReplay, Deliverable,
      FinalizeSession;
    match a
    case DeviceCaptures(frame, source, sequence) => CaptureContinues(w, s, frame, source, sequence);
    case CommitLive(session) => CommitContinues(w, s, session);
    case CommitReplay => CommitContinues(w, s, "");
    case _ => SameHistory(s, Next(w, s, a).value);
  }

  lemma ContinuesThrough(s: System, t: System, u: System)
    requires Continues(s, t) && Continues(t, u)
    ensures Continues(s, u)
  {
  }

  lemma ContinuesItself(s: System)
    ensures Continues(s, s)
  {
  }

  lemma InvLosesNothing(w: World, s: System)
    requires Lockstep.Inv(w, s)
    ensures Handoff.NothingLost(w, s)
  {
  }

  lemma {:induction false} RunContinues(w: World, s: System, actions: seq<Action>)
    requires Lockstep.Inv(w, s) && Run(w, s, actions).Some?
    ensures Continues(s, Run(w, s, actions).value)
    decreases |actions|
  {
    hide Lockstep.Inv, Handoff.NothingLost, Next, Continues;
    if actions == [] {
      ContinuesItself(s);
    } else {
      var t := Next(w, s, actions[0]).value;
      InvLosesNothing(w, s);
      StepContinues(w, s, actions[0]);
      Lockstep.StepKeeps(w, s, actions[0]);
      RunContinues(w, t, actions[1..]);
      ContinuesThrough(s, t, Run(w, t, actions[1..]).value);
    }
  }

  /** A frame the spool held at any moment is, at every later moment, still pending with those very
      bytes or resolved by the core with those very bytes; and a resolution is never undone. */
  lemma StoredForever(w: World, s: System, before: seq<Action>, after: seq<Action>, id: Identity)
    requires Initial(w, s) && Run(w, s, before).Some?
    requires Run(w, Run(w, s, before).value, after).Some?
    ensures var t := Run(w, s, before).value;
            var u := Run(w, t, after).value;
            t.log <= u.log &&
            (id in t.stored ==>
              (exists p :: p in u.spool.pending && p.identity == id && p.frame == t.stored[id]) ||
              (exists e :: e in u.log && e.identity == id && e.frame == t.stored[id]))
  {
    hide Run, Initial, Lockstep.Inv, Handoff.NothingLost;
    var t := Run(w, s, before).value;
    var u := Run(w, t, after).value;
    Lockstep.InitialInv(w, s);
    Lockstep.RunKeeps(w, s, before);
    RunContinues(w, t, after);
    Lockstep.RunKeeps(w, t, after);
    InvLosesNothing(w, u);
    if id in t.stored {
      HeldOrResolved(w, u, id);
    }
  }

  lemma HeldOrResolved(w: World, u: System, id: Identity)
    requires Handoff.NothingLost(w, u) && id in u.stored
    ensures (exists p :: p in u.spool.pending && p.identity == id && p.frame == u.stored[id]) ||
            (exists e :: e in u.log && e.identity == id && e.frame == u.stored[id])
  {
    assert Handoff.PendingOrLogged(u.spool.pending, u.log, id);
    if p :| p in u.spool.pending && p.identity == id {
      assert Handoff.RowKnown(w.codec, u.stored, p);
    }
  }

  lemma InvKnows(w: World, s: System)
    requires Lockstep.Inv(w, s)
    ensures Handoff.Inv(w, s)
  {
  }

  /** The first steps of a run, taken one at a time. */
  lemma RunPrefix(w: World, s: System, actions: seq<Action>, i: nat)
    requires i < |actions| && Next(w, s, actions[0]).Some?
    ensures Run(w, s, actions[..i + 1]) == Run(w, Next(w, s, actions[0]).value, actions[1..][..i])
  {
    hide Next;
    assert actions[..i + 1][0] == actions[0] && actions[..i + 1][1..] == actions[1..][..i];
  }

  lemma {:induction false} RemovalAcknowledged(w: World, s: System, actions: seq<Action>, p: Pending) returns (i: nat)
    requires Lockstep.Inv(w, s) && Run(w, s, actions).Some?
    requires p in s.spool.pending && p !in Run(w, s, actions).value.spool.pending
    ensures i < |actions| && Run(w, s, actions[..i]).Some?
    ensures Handoff.Acknowledges(w, Run(w, s, actions[..i]).value, actions[i], p)
    decreases |actions|
  {
    hide Lockstep.Inv, Handoff.Inv, Next, Handoff.Acknowledges;
    var t := Next(w, s, actions[0]).value;
    if p in t.spool.pending {
      Lockstep.StepKeeps(w, s, actions[0]);
      i := RemovalAcknowledged(w, t, actions[1..], p);
      RunPrefix(w, s, actions, i);
      i := i + 1;
    } else {
      InvKnows(w, s);
      Handoff.OnlyReceiptsRemove(w, s, actions[0], p);
      i := 0;
      assert actions[..0] == [];
    }
  }

  /** A row pending at one moment of a run and gone at a later one was acknowledged in between: some
      step took the receipt for exactly that row, and the core had resolved that capture by then. */
  lemma RemovedByReceipt(w: World, s: System, before: seq<Action>, after: seq<Action>, p: Pending) returns (i: nat)
    requires Initial(w, s) && Run(w, s, before).Some?
    requires Run(w, Run(w, s, before).value, after).Some?
    requires p in Run(w, s, before).value.spool.pending
    requires p !in Run(w, Run(w, s, before).value, after).value.spool.pending
    ensures var t := Run(w, s, before).value;
            i < |after| && Run(w, t, after[..i]).Some? &&
            Handoff.Acknowledges(w, Run(w, t, after[..i]).value, after[i], p)
  {
    hide Run, Initial, Lockstep.Inv, Handoff.Acknowledges;
    Lockstep.InitialInv(w, s);
    Lockstep.RunKeeps(w, s, before);
    i := RemovalAcknowledged(w, Run(w, s, before).value, after, p);
  }

  // ---------------------------------------------------------------- where a frame came from

  /** The bridge read this frame from the device during the run. */
  ghost predicate ReadIn(actions: seq<Action>, frame: seq<byte>) {
    exists a :: a in actions && a.DeviceCaptures? && a.frame == frame
  }

  lemma StepStores(w: World, s: System, a: Action, id: Identity)
    requires Handoff.NothingLost(w, s) && Next(w, s, a).Some? && id in Next(w, s, a).value.stored
    ensures var frame := Next(w, s, a).value.stored[id];
            (id in s.stored && s.stored[id] == frame) || (a.DeviceCaptures? && a.frame == frame)
  {
    hide Handoff.NothingLost, Store, Mark, CommitDelivery, CommitReplayed, FinalizeSession, Deliverable, FindTombstone,
      DeviceMaySend;
    if a.DeviceCaptures? && Store(w.codec, s.spool, a.frame, a.source).Stored? {
      if DeviceMaySend(w, s, a.frame) {
        Handoff.CaptureStored(w, s, a.frame, a.source);
      }
    }
  }

  lemma {:induction false} StoredOrigin(w: World, s: System, actions: seq<Action>, id: Identity)
    requires Lockstep.Inv(w, s) && Run(w, s, actions).Some? && id in Run(w, s, actions).value.stored
    ensures var frame := Run(w, s, actions).value.stored[id];
            (id in s.stored && s.stored[id] == frame) || ReadIn(actions, frame)
    decreases |actions|
  {
    hide Lockstep.Inv, Handoff.NothingLost, Next;
    if actions != [] {
      var t := Next(w, s, actions[0]).value;
      var frame := Run(w, s, actions).value.stored[id];
      InvLosesNothing(w, s);
      Lockstep.StepKeeps(w, s, actions[0]);
      StoredOrigin(w, t, actions[1..], id);
      if id in t.stored && t.stored[id] == frame {
        StepStores(w, s, actions[0], id);
        assert actions[0] in actions;
      } else {
        var a :| a in actions[1..] && a.DeviceCaptures? && a.frame == frame;
        assert a in actions;
      }
    }
  }

  /** Nothing is made up on the way: every capture the core resolves has the bytes of a frame that
      was pending when the run began or that the bridge read from the device during it. */
  lemma ResolvedOrigin(w: World, s: System, actions: seq<Action>, e: Entry)
    requires Initial(w, s) && Run(w, s, actions).Some? && e in Run(w, s, actions).value.log
    ensures (exists p :: p in s.spool.pending && p.frame == e.frame) || ReadIn(actions, e.frame)
  {
    hide Run, Lockstep.Inv, Handoff.NothingLost, ReadIn, WellFormed;
    var t := Run(w, s, actions).value;
    Lockstep.InitialInv(w, s);
    Lockstep.RunKeeps(w, s, actions);
    InvLosesNothing(w, t);
    EntryStored(w, t, e);
    StoredOrigin(w, s, actions, e.identity);
    if !ReadIn(actions, e.frame) {
      assert e.identity in s.stored.Keys;
      var p :| p in s.spool.pending && p.identity == e.identity;
    }
  }

  lemma EntryStored(w: World, t: System, e: Entry)
    requires Handoff.NothingLost(w, t) && e in t.log
    ensures e.identity in t.stored && t.stored[e.identity] == e.frame
  {
  }
}
