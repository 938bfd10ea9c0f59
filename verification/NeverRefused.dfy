/** The core never turns a delivery away for its contents: what was resolved before is answered again,
    and a storage conflict cannot arise between a bridge and a core that work on the same frames. */
module NeverRefused {
  import opened Bytes
  import opened Delivery
  import opened CoreStore
  import opened Accounting
  import opened DeliverySystem
  import opened ExactlyOnce
  import Handoff
  import Lockstep

  // ---------------------------------------------------------------- while the tables remember

  lemma FoundEntry(codec: Codec, log: Log, tombs: seq<Tombstone>, k: nat)
    requires LogWellFormed(codec, log) && TombstonesMatch(codec, log, tombs) && k < |log| <= k + |tombs|
    ensures var t := FindTombstone(tombs, log[k].identity);
            t == Some(tombs[k + |tombs| - |log|]) && SameCapture(codec, t.value, log[k])
  {
    RecentRemembered(codec, log, tombs, k);
    var t := FindTombstone(tombs, log[k].identity).value;
    var i :| 0 <= i < |tombs| && tombs[i] == t;
    var e := Remembers(log, tombs, i);
    assert SameCapture(codec, tombs[i], e) && e in log && log[k] in log;
    EntryUnique(codec, log, e, log[k]);
    assert Remembers(log, tombs, i) == log[|log| - |tombs| + i];
  }

  /** A resolved capture that is delivered again, as long as its tombstone is kept, is answered with
      its receipt and the decision on record, by every transaction, under any policy and for any
      session, and nothing changes. Other bytes under its identity are refused. */
  lemma RememberedAnswered(
    codec: Codec, plan: Plan, log: Log, c: Tables, p: Parcel, k: nat, policy: SavePolicy, session: SessionId)
    requires Accounted(codec, plan, log, c) && k < |log| <= k + |c.tombs| && session != ""
    requires Deliverable(codec, p) && codec.identity(p.frame) == Some(log[k].identity)
    ensures var resolution := c.tombs[k + |c.tombs| - |log|].resolution;
            var answer := Resolved(c, ReceiptFor(codec, p), false, resolution);
            var outcome := CommitDelivery(codec, c, p, policy, session);
            (resolution.RawArchived? <==> RowFor(log[k]) in c.archive) &&
            CommitReplayed(codec, c, p) == outcome &&
            (session in c.sessions ==> CommitTerminalReplay(codec, c, p, session, policy) == outcome) &&
            outcome ==
              if codec.crc(p.frame) == codec.crc(log[k].frame) && codec.sha(p.frame) == codec.sha(log[k].frame) then answer
              else Refused(StorageConflict)
  {
    hide StatsMatch, ArchiveMatches, LatestMatches, SummariesMatch, FindTombstone, Deliverable, Archive, Prune, CountOne,
      FinalizeSession, WithoutSession, DiscardSession;
    FoundEntry(codec, log, c.tombs, k);
    var i := k + |c.tombs| - |log|;
    assert Remembers(log, c.tombs, i) == log[k];
    assert c.tombs[i].resolution.RawArchived? <==> RowFor(Remembers(log, c.tombs, i)) in c.archive;
  }

  /** A resolved commit says whether the capture is new to the archive's books: it reports an insertion
      exactly when no tombstone remembers the identity and, where the policy archives, no row holds it;
      and what it calls archived is then in the archive with these bytes. */
  lemma InsertedExactly(codec: Codec, c: Tables, p: Parcel, policy: SavePolicy, session: SessionId)
    requires Deliverable(codec, p)
    ensures var r := CommitDelivery(codec, c, p, policy, session);
            var id := codec.identity(p.frame).value;
            r.Resolved? ==>
              (r.inserted <==>
                (forall t :: t in c.tombs ==> t.identity != id) &&
                (policy.SaveAll? ==> forall a :: a in c.archive ==> a.identity != id)) &&
              (FindTombstone(c.tombs, id).None? && policy.SaveAll? ==>
                r.resolution.RawArchived? && exists a :: a in r.tables.archive && a.identity == id && a.frame == p.frame)
  {
    var id := codec.identity(p.frame).value;
    hide Prune, CountOne;
    if FindTombstone(c.tombs, id).None? && policy.SaveAll? && FindArchived(c.archive, id).None? {
      var row := ArchiveRow(id, session, p.frame);
      assert row in c.archive + [row];
    }
  }

  // ---------------------------------------------------------------- what the records say in every run

  predicate LogHonest(codec: Codec, log: Log) {
    forall e :: e in log ==> codec.identity(e.frame) == Some(e.identity)
  }

  /** An entry with this tombstone's identity and bytes. */
  predicate Vouches(codec: Codec, e: Entry, t: Tombstone) {
    e.identity == t.identity && codec.crc(e.frame) == t.crc && codec.sha(e.frame) == t.sha
  }

  ghost predicate Vouched(codec: Codec, log: Log, t: Tombstone) {
    exists e :: e in log && Vouches(codec, e, t)
  }

  ghost predicate TombsHonest(codec: Codec, log: Log, tombs: seq<Tombstone>) {
    forall t :: t in tombs ==> Vouched(codec, log, t)
  }

  /** One identity, one frame. */
  predicate OneFrame(log: Log) {
    forall e, f :: e in log && f in log && e.identity == f.identity ==> e.frame == f.frame
  }

  ghost predicate Records(codec: Codec, log: Log, c: Tables) {
    LogHonest(codec, log) && TombsHonest(codec, log, c.tombs)
  }

  predicate SameBytes(t: Tombstone, u: Tombstone) {
    t.identity == u.identity && t.crc == u.crc && t.sha == u.sha
  }

  /** Every tombstone after says what one before said, but for the resolution. */
  ghost predicate Reworded(before: seq<Tombstone>, after: seq<Tombstone>) {
    |after| == |before| && forall i :: 0 <= i < |after| ==> SameBytes(after[i], before[i])
  }

  lemma RewordedHonest(codec: Codec, log: Log, before: seq<Tombstone>, after: seq<Tombstone>)
    requires TombsHonest(codec, log, before) && Reworded(before, after)
    ensures TombsHonest(codec, log, after)
  {
    forall t | t in after ensures Vouched(codec, log, t) {
      var i :| 0 <= i < |after| && after[i] == t;
      assert Vouched(codec, log, before[i]);
      var e :| e in log && Vouches(codec, e, before[i]);
      assert Vouches(codec, e, t);
    }
  }

  lemma FinalizeRewords(codec: Codec, c: Tables, s: SessionId, payload: Summary, policy: SavePolicy)
    ensures var r := FinalizeSession(codec, c, s, payload, policy); r.Some? ==> Reworded(c.tombs, r.value.tombs)
  {
    hide Archive, RowsOf, TombstonesOf;
  }

  lemma AppendHonest(codec: Codec, log: Log, tombs: seq<Tombstone>, e: Entry, t: Tombstone)
    requires TombsHonest(codec, log, tombs) && Vouches(codec, e, t)
    ensures TombsHonest(codec, log + [e], Prune(tombs + [t]))
  {
    forall x | x in Prune(tombs + [t]) ensures Vouched(codec, log + [e], x) {
      if x in tombs {
        assert Vouched(codec, log, x);
        var f :| f in log && Vouches(codec, f, x);
        assert f in log + [e];
      } else {
        assert x == t && e in log + [e];
      }
    }
  }

  lemma TombstoneVouched(codec: Codec, p: Parcel, resolution: Resolution, session: SessionId)
    requires codec.identity(p.frame).Some?
    ensures Vouches(codec, Entry(codec.identity(p.frame).value, session, p.frame), TombstoneFor(codec, p, resolution, session))
  {
  }

  lemma CommitHonest(codec: Codec, log: Log, c: Tables, p: Parcel, policy: SavePolicy, session: SessionId)
    requires TombsHonest(codec, log, c.tombs) && CommitDelivery(codec, c, p, policy, session).Resolved?
    requires codec.identity(p.frame).Some? && FindTombstone(c.tombs, codec.identity(p.frame).value).None?
    ensures TombsHonest(codec, log + [Entry(codec.identity(p.frame).value, session, p.frame)],
                        CommitDelivery(codec, c, p, policy, session).tables.tombs)
  {
    hide TombsHonest, Prune, CountOne, Archive, FindTombstone, Deliverable, TombstoneFor;
    TombstoneVouched(codec, p, PolicyResolution(policy), session);
    AppendHonest(codec, log, c.tombs, Entry(codec.identity(p.frame).value, session, p.frame),
                 TombstoneFor(codec, p, PolicyResolution(policy), session));
  }

  lemma DiscardRewords(tombs: seq<Tombstone>, session: SessionId)
    ensures Reworded(tombs, tombs) && Reworded(tombs, DiscardSession(tombs, session))
  {
  }

  lemma TerminalHonest(codec: Codec, log: Log, c: Tables, p: Parcel, session: SessionId, policy: SavePolicy)
    requires TombsHonest(codec, log, c.tombs) && session in c.sessions && codec.identity(p.frame).Some?
    requires CommitTerminalReplay(codec, c, p, session, policy).Resolved?
    requires FindTombstone(c.tombs, codec.identity(p.frame).value).None?
    ensures TombsHonest(codec, log + [Entry(codec.identity(p.frame).value, session, p.frame)],
                        CommitTerminalReplay(codec, c, p, session, policy).tables.tombs)
  {
    hide *;
    var e := Entry(codec.identity(p.frame).value, session, p.frame);
    var mid := Handoff.TerminalShape(codec, c, p, session, policy);
    var resolution := if policy.SaveNone? then DiscardedByPolicy else RawArchived;
    var tombs := if policy.SaveLast? then DiscardSession(c.tombs, session) else c.tombs;
    DiscardRewords(c.tombs, session);
    RewordedHonest(codec, log, c.tombs, tombs);
    TombstoneVouched(codec, p, resolution, session);
    AppendHonest(codec, log, tombs, e, TombstoneFor(codec, p, resolution, session));
    FinalizeRewords(codec, mid, session, c.sessions[session], policy);
    RewordedHonest(codec, log + [e], mid.tombs, CommitTerminalReplay(codec, c, p, session, policy).tables.tombs);
  }

  lemma ReplayHonest(codec: Codec, log: Log, c: Tables, p: Parcel)
    requires TombsHonest(codec, log, c.tombs) && CommitReplayed(codec, c, p).Resolved?
    requires codec.identity(p.frame).Some? && FindTombstone(c.tombs, codec.identity(p.frame).value).None?
    ensures var id := codec.identity(p.frame).value;
            (id.device, id.boot) in c.contexts &&
            TombsHonest(codec, log + [Entry(id, c.contexts[(id.device, id.boot)].session, p.frame)],
                        CommitReplayed(codec, c, p).tables.tombs)
  {
    hide TombsHonest, CommitDelivery, CommitTerminalReplay, CommitReplayed, FindTombstone, Deliverable;
    ReplayCases(codec, c, p);
    var id := codec.identity(p.frame).value;
    var context := c.contexts[(id.device, id.boot)];
    if Open(c, context.session) {
      CommitHonest(codec, log, c, p, context.policy, context.session);
    } else {
      TerminalHonest(codec, log, c, p, context.session, context.policy);
    }
  }

  lemma CommitStepRecords(w: World, s: System, a: Action)
    requires Records(w.codec, s.log, s.core) && Next(w, s, a).Some? && (a.CommitLive? || a.CommitReplay?)
    ensures Records(w.codec, Next(w, s, a).value.log, Next(w, s, a).value.core)
  {
    var p := s.client.parcel;
    if a.CommitLive? { LiveDoes(w, s, a.session); } else { ReplayDoes(w, s); }
    var r := if a.CommitLive? then CommitDelivery(w.codec, s.core, p, w.plan(a.session), a.session)
             else CommitReplayed(w.codec, s.core, p);
    hide Next, TombsHonest, CommitDelivery, CommitReplayed, FindTombstone;
    if r.Resolved? {
      if FindTombstone(s.core.tombs, w.codec.identity(p.frame).value).None? {
        if a.CommitLive? {
          CommitHonest(w.codec, s.log, s.core, p, w.plan(a.session), a.session);
        } else {
          ReplayHonest(w.codec, s.log, s.core, p);
        }
      } else if a.CommitLive? {
        CommitShape(w.codec, s.core, p, w.plan(a.session), a.session);
      } else {
        Handoff.ReplayIdentities(w.codec, s.core, p);
      }
    }
  }

  lemma StepRecords(w: World, s: System, a: Action)
    requires Records(w.codec, s.log, s.core) && Next(w, s, a).Some?
    ensures Records(w.codec, Next(w, s, a).value.log, Next(w, s, a).value.core)
  {
    hide TombsHonest, LogHonest, ClientCommitLive, ClientCommitReplay, FinalizeSession, ContextsFit, SummaryPolicy;
    if a.CommitLive? || a.CommitReplay? {
      CommitStepRecords(w, s, a);
      hide Next;
    } else if a.EndSession? {
      FinalizeRewords(w.codec, s.core, a.session, a.payload, a.payload.policy);
      if FinalizeSession(w.codec, s.core, a.session, a.payload, a.payload.policy).Some? {
        RewordedHonest(w.codec, s.log, s.core.tombs,
                       FinalizeSession(w.codec, s.core, a.session, a.payload, a.payload.policy).value.tombs);
      }
    } else if !TouchesCore(a) {
      CoreUntouched(w, s, a);
      hide Next;
    }
  }

  lemma {:induction false} RunRecords(w: World, s: System, actions: seq<Action>)
    requires Records(w.codec, s.log, s.core) && Run(w, s, actions).Some?
    ensures Records(w.codec, Run(w, s, actions).value.log, Run(w, s, actions).value.core)
    decreases |actions|
  {
    hide Records, Next;
    if actions != [] {
      StepRecords(w, s, actions[0]);
      RunRecords(w, Next(w, s, actions[0]).value, actions[1..]);
    }
  }

  // ---------------------------------------------------------------- so nothing conflicts

  /** This frame, under its identity, is consistent with everything resolved. */
  predicate Fresh(codec: Codec, log: Log, frame: seq<byte>) {
    codec.identity(frame).Some? && forall e :: e in log && e.identity == codec.identity(frame).value ==> e.frame == frame
  }

  lemma ArchiveAccepts(codec: Codec, log: Log, archive: seq<ArchiveRow>, frame: seq<byte>, session: SessionId)
    requires ArchiveSound(codec, log, archive) && LogHonest(codec, log) && Fresh(codec, log, frame)
    ensures Archive(archive, ArchiveRow(codec.identity(frame).value, session, frame)).Some?
  {
    var id := codec.identity(frame).value;
    var kept := FindArchived(archive, id);
    if kept.Some? {
      assert RowHonest(codec, kept.value) && FrameLogged(log, kept.value.frame);
      var e :| e in log && e.frame == kept.value.frame;
      assert e.identity == id;
    }
  }

  lemma FreezeAccepts(codec: Codec, log: Log, c: Tables, session: SessionId)
    requires Sound(codec, log, c) && LogHonest(codec, log) && OneFrame(log)
    ensures FinalizeLatest(codec, c, session).Some?
  {
    hide ArchiveSound;
    if session in c.latest {
      var frame := c.latest[session].frame;
      var e :| e in log && e.frame == frame;
      ArchiveAccepts(codec, log, c.archive, frame, session);
    }
  }

  /** Ending a session, or recounting one, cannot fail. */
  lemma FinalizeAccepts(codec: Codec, log: Log, c: Tables, session: SessionId, payload: Summary, policy: SavePolicy)
    requires Sound(codec, log, c) && LogHonest(codec, log) && OneFrame(log)
    ensures FinalizeSession(codec, c, session, payload, policy).Some?
  {
    FreezeAccepts(codec, log, c, session);
    hide FinalizeLatest, Sound, LogHonest, OneFrame, RowsOf, TombstonesOf;
  }

  lemma RememberedAccepts(codec: Codec, log: Log, c: Tables, p: Parcel, t: Tombstone)
    requires TombsHonest(codec, log, c.tombs) && Fresh(codec, log, p.frame)
    requires t in c.tombs && t.identity == codec.identity(p.frame).value
    ensures Remembered(codec, c, p, t) == Resolved(c, ReceiptFor(codec, p), false, t.resolution)
  {
    assert Vouched(codec, log, t);
    var e :| e in log && Vouches(codec, e, t);
  }

  /** What is known of a delivery that reaches the core. */
  ghost predicate Welcome(codec: Codec, log: Log, c: Tables, p: Parcel) {
    Sound(codec, log, c) && Records(codec, log, c) && OneFrame(log) && Deliverable(codec, p) && Fresh(codec, log, p.frame)
  }

  lemma CommitAccepts(codec: Codec, log: Log, c: Tables, p: Parcel, policy: SavePolicy, session: SessionId)
    requires Welcome(codec, log, c, p)
    ensures CommitDelivery(codec, c, p, policy, session).Resolved? <==> session != ""
  {
    hide ArchiveSound, TombsHonest, OneFrame, LatestSound, Archive, Prune, CountOne, Deliverable, Remembered, LogHonest, Fresh;
    FreshIdentity(codec, log, p.frame);
    var id := codec.identity(p.frame).value;
    ArchiveAccepts(codec, log, c.archive, p.frame, session);
    var found := FindTombstone(c.tombs, id);
    if found.Some? {
      RememberedAccepts(codec, log, c, p, found.value);
    }
    hide FindTombstone;
  }

  lemma FreshIdentity(codec: Codec, log: Log, frame: seq<byte>)
    requires Fresh(codec, log, frame)
    ensures codec.identity(frame).Some?
  {
  }

  lemma FreshEntry(codec: Codec, log: Log, frame: seq<byte>, session: SessionId)
    requires Fresh(codec, log, frame) && LogHonest(codec, log) && OneFrame(log)
    ensures var more := log + [Entry(codec.identity(frame).value, session, frame)];
            LogHonest(codec, more) && OneFrame(more) && Fresh(codec, more, frame) && FrameLogged(more, frame) && log <= more
  {
    var e := Entry(codec.identity(frame).value, session, frame);
    assert e in log + [e];
  }

  lemma TerminalAccepts(codec: Codec, log: Log, c: Tables, p: Parcel, session: SessionId, policy: SavePolicy)
    requires Welcome(codec, log, c, p) && session in c.sessions && codec.identity(p.frame).Some?
    requires FindTombstone(c.tombs, codec.identity(p.frame).value).None?
    ensures CommitTerminalReplay(codec, c, p, session, policy).Resolved?
  {
    hide ArchiveSound, TombsHonest, OneFrame, LatestSound, Archive, Prune, CountOne, Deliverable, LogHonest, Fresh, FrameLogged,
      FindTombstone, FinalizeSession, WithoutSession, DiscardSession, TombstoneFor;
    var row := ArchiveRow(codec.identity(p.frame).value, session, p.frame);
    var more := log + [Entry(row.identity, session, p.frame)];
    FreshEntry(codec, log, p.frame, session);
    SoundGrows(codec, log, more, c);
    var kept := if policy.SaveLast? then WithoutSession(c.archive, session) else c.archive;
    var tombs := if policy.SaveLast? then DiscardSession(c.tombs, session) else c.tombs;
    WithoutIsSound(codec, more, c.archive, session);
    ArchiveAccepts(codec, more, kept, p.frame, session);
    RowIsHonest(codec, row);
    ArchiveKeepsSound(codec, more, kept, row);
    var archive := if policy.SaveNone? then Some(kept) else Archive(kept, row);
    var resolution := if policy.SaveNone? then DiscardedByPolicy else RawArchived;
    var after := c.(
      archive := archive.value, tombs := Prune(tombs + [TombstoneFor(codec, p, resolution, session)]),
      stats := CountOne(c.stats, session, row.identity.capture));
    FinalizeAccepts(codec, more, after, session, c.sessions[session], policy);
  }

  lemma RowIsHonest(codec: Codec, row: ArchiveRow)
    ensures codec.identity(row.frame) == Some(row.identity) ==> RowHonest(codec, row)
  {
  }

  /** A replayed delivery is refused only for want of a policy. */
  lemma ReplayAccepts(codec: Codec, log: Log, c: Tables, p: Parcel)
    requires Welcome(codec, log, c, p) && codec.identity(p.frame).Some?
    requires forall k :: k in c.contexts ==> c.contexts[k].session != ""
    ensures var id := codec.identity(p.frame).value;
            CommitReplayed(codec, c, p).Resolved? <==>
              FindTombstone(c.tombs, id).Some? || (id.device, id.boot) in c.contexts
  {
    var id := codec.identity(p.frame).value;
    var found := FindTombstone(c.tombs, id);
    if found.Some? {
      RememberedAccepts(codec, log, c, p, found.value);
    } else if (id.device, id.boot) in c.contexts {
      var context := c.contexts[(id.device, id.boot)];
      CommitAccepts(codec, log, c, p, context.policy, context.session);
      if context.session in c.sessions {
        TerminalAccepts(codec, log, c, p, context.session, context.policy);
      }
    }
    hide Sound, Records, OneFrame, Fresh, FindTombstone, CommitDelivery, CommitTerminalReplay, Remembered;
  }

  // ---------------------------------------------------------------- in every run

  /** All that the core's side of a reachable state satisfies. */
  ghost predicate Sane(w: World, s: System) {
    Lockstep.Inv(w, s) && Sound(w.codec, s.log, s.core) && Records(w.codec, s.log, s.core) &&
    ContextsFit(w.plan, s.core.contexts)
  }

  lemma StepContexts(w: World, s: System, a: Action)
    requires ContextsFit(w.plan, s.core.contexts) && Next(w, s, a).Some?
    ensures ContextsFit(w.plan, Next(w, s, a).value.core.contexts)
    ensures !a.SetContexts? ==> Next(w, s, a).value.core.contexts == s.core.contexts
  {
    hide CommitDelivery, CommitReplayed, FinalizeSession, SummaryPolicy, FindTombstone;
    if a.CommitLive? {
      LiveDoes(w, s, a.session);
      CommitShape(w.codec, s.core, s.client.parcel, w.plan(a.session), a.session);
      hide Next;
    } else if a.CommitReplay? {
      ReplayDoes(w, s);
      ReplayContexts(w.codec, s.core, s.client.parcel);
      hide Next;
    } else if a.EndSession? {
      FinalizeContexts(w.codec, s.core, a.session, a.payload, a.payload.policy);
    } else if !TouchesCore(a) {
      CoreUntouched(w, s, a);
      hide Next;
    }
    hide ContextsFit;
  }

  lemma StepSane(w: World, s: System, a: Action)
    requires Sane(w, s) && Next(w, s, a).Some?
    ensures Sane(w, Next(w, s, a).value)
  {
    hide Lockstep.Inv, Sound, Records, ContextsFit, Next;
    Lockstep.StepKeeps(w, s, a);
    StepSound(w, s, a);
    StepRecords(w, s, a);
    StepContexts(w, s, a);
  }

  lemma {:induction false} RunSane(w: World, s: System, actions: seq<Action>)
    requires Sane(w, s) && Run(w, s, actions).Some?
    ensures Sane(w, Run(w, s, actions).value)
    decreases |actions|
  {
    hide Sane, Next;
    if actions != [] {
      StepSane(w, s, actions[0]);
      RunSane(w, Next(w, s, actions[0]).value, actions[1..]);
    }
  }

  lemma InitialSane(w: World, s: System)
    requires Initial(w, s)
    ensures Sane(w, s)
  {
    Lockstep.InitialInv(w, s);
    hide Lockstep.Inv;
  }

  lemma DeliveryWelcome(w: World, t: System)
    requires Sane(w, t) && t.client.Accepted?
    ensures Welcome(w.codec, t.log, t.core, t.client.parcel) && w.codec.identity(t.client.parcel.frame).Some?
  {
    hide Sound, Records, Lockstep.Flow, Lockstep.RowsHeld, ContextsFit;
  }

  /** The identity in the client's slot still has a tombstone. */
  predicate IsRemembered(w: World, t: System)
    requires t.client.Accepted? && w.codec.identity(t.client.parcel.frame).Some?
  {
    FindTombstone(t.core.tombs, w.codec.identity(t.client.parcel.frame).value).Some?
  }

  /** The slot after a remembered delivery: this delivery's receipt, and nothing else changed. */
  function Reanswered(w: World, t: System): System
    requires t.client.Accepted? && w.codec.identity(t.client.parcel.frame).Some?
  {
    t.(client := Committed(t.client.parcel, ReceiptFor(w.codec, t.client.parcel), t.client.sequence))
  }

  ghost predicate LiveAccepted(w: World, t: System, session: SessionId)
    requires t.client.Accepted? && w.codec.identity(t.client.parcel.frame).Some?
  {
    var live := Next(w, t, CommitLive(session));
    live.Some? && (live.value.client.Committed? <==> session != "") &&
    (IsRemembered(w, t) && session != "" ==> live.value == Reanswered(w, t))
  }

  ghost predicate ReplayAccepted(w: World, t: System)
    requires t.client.Accepted? && w.codec.identity(t.client.parcel.frame).Some?
  {
    var id := w.codec.identity(t.client.parcel.frame).value;
    var replay := Next(w, t, CommitReplay);
    replay.Some? &&
    (replay.value.client.Committed? <==> IsRemembered(w, t) || (id.device, id.boot) in t.core.contexts) &&
    (IsRemembered(w, t) ==> replay.value == Reanswered(w, t))
  }

  /** In every run, whatever was forgotten: a delivery in the client's slot is resolved by a commit for
      any session that is named, and by a replay if and only if its capture is remembered or a
      policy is registered for its boot; no storage conflict ever arises. A remembered one leaves
      every table as it was and gets the receipt of this delivery. */
  lemma CommitsAccepted(w: World, s: System, actions: seq<Action>, session: SessionId)
    requires Initial(w, s) && Run(w, s, actions).Some? && Run(w, s, actions).value.client.Accepted?
    ensures var t := Run(w, s, actions).value;
            w.codec.identity(t.client.parcel.frame).Some? && ReplayAccepted(w, t) &&
            (Open(t.core, session) ==> LiveAccepted(w, t, session))
  {
    InitialSane(w, s);
    RunSane(w, s, actions);
    hide Run, Initial, Sane, ReplayAccepted, LiveAccepted;
    var t := Run(w, s, actions).value;
    DeliveryWelcome(w, t);
    ReplayHere(w, t);
    if Open(t.core, session) {
      LiveHere(w, t, session);
    }
  }

  lemma LiveHere(w: World, t: System, session: SessionId)
    requires Sane(w, t) && t.client.Accepted? && w.codec.identity(t.client.parcel.frame).Some? && Open(t.core, session)
    ensures LiveAccepted(w, t, session)
  {
    hide Sane, Welcome, FindTombstone, CommitDelivery;
    DeliveryWelcome(w, t);
    CommitAccepts(w.codec, t.log, t.core, t.client.parcel, w.plan(session), session);
    if IsRemembered(w, t) {
      Answers(w.codec, t.log, t.core, t.client.parcel, w.plan(session), session);
    }
  }

  lemma ReplayHere(w: World, t: System)
    requires Sane(w, t) && t.client.Accepted? && w.codec.identity(t.client.parcel.frame).Some?
    ensures ReplayAccepted(w, t)
  {
    hide Sane, Welcome, FindTombstone, CommitReplayed;
    DeliveryWelcome(w, t);
    ContextsNamed(w, t);
    ReplayAccepts(w.codec, t.log, t.core, t.client.parcel);
    if IsRemembered(w, t) {
      Answers(w.codec, t.log, t.core, t.client.parcel, SaveAll, "");
    }
  }

  lemma ContextsNamed(w: World, t: System)
    requires Sane(w, t)
    ensures forall k :: k in t.core.contexts ==> t.core.contexts[k].session != ""
  {
    hide Lockstep.Inv, Sound, Records;
  }

  lemma Answers(codec: Codec, log: Log, c: Tables, p: Parcel, policy: SavePolicy, session: SessionId)
    requires Welcome(codec, log, c, p) && codec.identity(p.frame).Some?
    requires FindTombstone(c.tombs, codec.identity(p.frame).value).Some?
    ensures var resolution := FindTombstone(c.tombs, codec.identity(p.frame).value).value.resolution;
            var answer := Resolved(c, ReceiptFor(codec, p), false, resolution);
            CommitReplayed(codec, c, p) == answer && (session != "" ==> CommitDelivery(codec, c, p, policy, session) == answer)
  {
    RememberedAccepts(codec, log, c, p, FindTombstone(c.tombs, codec.identity(p.frame).value).value);
    hide Sound, Records, OneFrame, Fresh, FindTombstone, Remembered;
  }

  // ---------------------------------------------------------------- summaries are stored

  lemma LogHasOneFrame(w: World, t: System)
    requires Sane(w, t)
    ensures OneFrame(t.log) && Sound(w.codec, t.log, t.core) && LogHonest(w.codec, t.log)
  {
    hide Sound, LogHonest, TombsHonest, Lockstep.Flow, Lockstep.RowsHeld, Handoff.FlightKnown, ContextsFit;
  }

  lemma FinalizeStores(codec: Codec, c: Tables, session: SessionId, payload: Summary, policy: SavePolicy)
    requires FinalizeSession(codec, c, session, payload, policy).Some?
    ensures var d := FinalizeSession(codec, c, session, payload, policy).value;
            session in d.sessions && d.sessions[session].state == payload.state &&
            d.sessions[session].policy == payload.policy &&
            (forall s :: s != session ==> (s in d.sessions <==> s in c.sessions)) &&
            forall s :: s in c.sessions && s != session ==> d.sessions[s] == c.sessions[s]
  {
    hide Archive, MarkArchived, RowsOf, TombstonesOf;
  }

  /** The running summary is stored as it is. */
  ghost predicate SaveStores(w: World, t: System, session: SessionId, summary: Summary) {
    Open(t.core, session) && !summary.state.Ended? ==>
      Next(w, t, SaveSession(session, summary)) ==
        Some(t.(core := t.core.(sessions := t.core.sessions[session := summary])))
  }

  /** The session is ended with this state and policy, and no other one is touched. */
  ghost predicate EndStores(w: World, t: System, session: SessionId, summary: Summary) {
    summary.state.Ended? && SummaryPolicy(w.plan, session, summary.policy) ==>
      var n := Next(w, t, EndSession(session, summary));
      n.Some? && var u := n.value;
      u == t.(core := u.core) && session in u.core.sessions && !Open(u.core, session) &&
      u.core.sessions[session].state == summary.state && u.core.sessions[session].policy == summary.policy &&
      forall s :: s in t.core.sessions && s != session ==> s in u.core.sessions && u.core.sessions[s] == t.core.sessions[s]
  }

  lemma SaveDoes(w: World, t: System, session: SessionId, summary: Summary)
    ensures SaveStores(w, t, session, summary)
  {
  }

  lemma EndDoes(w: World, t: System, session: SessionId, summary: Summary)
    requires FinalizeSession(w.codec, t.core, session, summary, summary.policy).Some?
    ensures EndStores(w, t, session, summary)
  {
    FinalizeStores(w.codec, t.core, session, summary, summary.policy);
    hide FinalizeSession;
  }

  /** In every run a summary is stored when the application stores one: a running one as it is, and an
      ended one with its state, its policy and the recount; either way no other session is touched.
      So ending a session always ends it. */
  lemma SummariesStored(w: World, s: System, actions: seq<Action>, session: SessionId, summary: Summary)
    requires Initial(w, s) && Run(w, s, actions).Some?
    ensures var t := Run(w, s, actions).value; SaveStores(w, t, session, summary) && EndStores(w, t, session, summary)
  {
    hide *;
    InitialSane(w, s);
    RunSane(w, s, actions);
    var t := Run(w, s, actions).value;
    LogHasOneFrame(w, t);
    FinalizeAccepts(w.codec, t.log, t.core, session, summary, summary.policy);
    SaveDoes(w, t, session, summary);
    EndDoes(w, t, session, summary);
  }
}
