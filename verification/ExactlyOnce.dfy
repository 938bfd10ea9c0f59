/** Over all runs, whatever the device sends and whenever: exactly when the core resolves a capture
    twice, and what is right as long as it does not. */
module ExactlyOnce {
  import opened Bytes
  import opened Delivery
  import opened CoreStore
  import opened Accounting
  import opened DeliverySystem
  import Spool
  import Handoff
  import History

  predicate DistinctEntries(es: Log) {
    forall i, j :: 0 <= i < j < |es| ==> es[i].identity != es[j].identity
  }

  predicate DistinctRows(rows: seq<ArchiveRow>) {
    forall i, j :: 0 <= i < j < |rows| ==> rows[i].identity != rows[j].identity
  }

  /** The tables agree with the log, and every context names its session's own policy. */
  ghost predicate Kept(w: World, s: System) {
    Accounted(w.codec, w.plan, s.log, s.core) && ContextsFit(w.plan, s.core.contexts)
  }

  /** Resolved before, but the tombstone that remembered it has been pruned. */
  ghost predicate Forgotten(s: System, id: Identity) {
    Logged(s.log, id) && FindTombstone(s.core.tombs, id).None?
  }

  /** A commit of a forgotten capture that goes through. */
  ghost predicate Forgetful(w: World, s: System, a: Action) {
    (a.CommitLive? || a.CommitReplay?) && Next(w, s, a).Some? && Next(w, s, a).value.client.Committed? &&
    s.client.Accepted? && w.codec.identity(s.client.parcel.frame).Some? &&
    Forgotten(s, w.codec.identity(s.client.parcel.frame).value)
  }

  /** Some step of the run is one. */
  ghost predicate Forgets(w: World, s: System, actions: seq<Action>)
    decreases |actions|
  {
    actions != [] &&
    (Forgetful(w, s, actions[0]) ||
     (Next(w, s, actions[0]).Some? && Forgets(w, Next(w, s, actions[0]).value, actions[1..])))
  }

  // ---------------------------------------------------------------- commits

  /** What a commit did: nothing, or the outcome's tables and, without a tombstone, one more entry. */
  ghost predicate CommitDoes(w: World, s: System, t: System, r: Outcome, session: SessionId) {
    s.client.Accepted? && w.codec.identity(s.client.parcel.frame).Some? &&
    (t.client.Committed? <==> r.Resolved?) &&
    t.core == (if r.Resolved? then r.tables else s.core) &&
    t.log == if r.Resolved? then LogAfter(w, s, s.client.parcel, session) else s.log
  }

  lemma LiveDoes(w: World, s: System, session: SessionId)
    requires ClientCommitLive(w, s, session).Some?
    ensures Open(s.core, session)
    ensures CommitDoes(w, s, ClientCommitLive(w, s, session).value,
                       CommitDelivery(w.codec, s.core, s.client.parcel, w.plan(session), session), session)
  {
    hide CommitDelivery, LogAfter;
  }

  function ContextSession(w: World, s: System): SessionId
    requires s.client.Accepted? && w.codec.identity(s.client.parcel.frame).Some?
  {
    var id := w.codec.identity(s.client.parcel.frame).value;
    if (id.device, id.boot) in s.core.contexts then s.core.contexts[(id.device, id.boot)].session else ""
  }

  lemma ReplayDoes(w: World, s: System)
    requires ClientCommitReplay(w, s).Some?
    ensures s.client.Accepted? && w.codec.identity(s.client.parcel.frame).Some?
    ensures CommitDoes(w, s, ClientCommitReplay(w, s).value, CommitReplayed(w.codec, s.core, s.client.parcel),
                       ContextSession(w, s))
  {
    hide CommitReplayed, LogAfter;
  }

  lemma CommitShape(codec: Codec, c: Tables, p: Parcel, policy: SavePolicy, session: SessionId)
    ensures var r := CommitDelivery(codec, c, p, policy, session);
            r.Resolved? ==>
              r.tables.contexts == c.contexts && session != "" && Deliverable(codec, p) &&
              (FindTombstone(c.tombs, codec.identity(p.frame).value).Some? ==> r.tables == c)
  {
    hide Prune, CountOne, Archive, FindTombstone;
  }

  /** No transaction touches the policy contexts. */
  lemma ReplayContexts(codec: Codec, c: Tables, p: Parcel)
    ensures var r := CommitReplayed(codec, c, p); r.Resolved? ==> r.tables.contexts == c.contexts
  {
    hide FindTombstone, Prune, CountOne, Archive, RowsOf, TombstonesOf;
  }

  lemma FinalizeContexts(codec: Codec, c: Tables, s: SessionId, payload: Summary, policy: SavePolicy)
    ensures var r := FinalizeSession(codec, c, s, payload, policy); r.Some? ==> r.value.contexts == c.contexts
  {
    hide Archive, RowsOf, TombstonesOf;
  }

  lemma CommitRemembers(w: World, s: System, a: Action)
    requires (a.CommitLive? || a.CommitReplay?) && Next(w, s, a).Some? && !Forgetful(w, s, a)
    requires Next(w, s, a).value.client.Committed?
    ensures s.client.Accepted? && w.codec.identity(s.client.parcel.frame).Some?
    ensures !Forgotten(s, w.codec.identity(s.client.parcel.frame).value)
  {
    hide CommitDelivery, CommitReplayed, Forgotten;
  }

  lemma Unforgotten(s: System, id: Identity)
    ensures !Forgotten(s, id) ==> !Logged(s.log, id) || FindTombstone(s.core.tombs, id).Some?
  {
  }

  lemma CommitKept(w: World, s: System, t: System, r: Outcome, session: SessionId)
    requires Kept(w, s) && CommitDoes(w, s, t, r, session)
    requires r.Resolved? ==> r.tables.contexts == s.core.contexts
    requires var id := w.codec.identity(s.client.parcel.frame).value;
             r.Resolved? ==>
               if FindTombstone(s.core.tombs, id).Some? then r.tables == s.core
               else Accounted(w.codec, w.plan, s.log + [Entry(id, session, s.client.parcel.frame)], r.tables)
    ensures Kept(w, t)
  {
    hide Accounted, ContextsFit, FindTombstone;
  }

  lemma LiveKept(w: World, s: System, session: SessionId)
    requires Kept(w, s) && Next(w, s, CommitLive(session)).Some? && !Forgetful(w, s, CommitLive(session))
    ensures Kept(w, Next(w, s, CommitLive(session)).value)
  {
    hide Kept, ClientCommitLive, CommitDelivery, Accounted, Deliverable, FindTombstone, Forgetful, Forgotten;
    LiveDoes(w, s, session);
    var t := Next(w, s, CommitLive(session)).value;
    var p := s.client.parcel;
    var id := w.codec.identity(p.frame).value;
    var r := CommitDelivery(w.codec, s.core, p, w.plan(session), session);
    CommitShape(w.codec, s.core, p, w.plan(session), session);
    if r.Resolved? && FindTombstone(s.core.tombs, id).None? {
      CommitRemembers(w, s, CommitLive(session));
      Unforgotten(s, id);
      KeptAccounted(w, s);
      CommitNewAccounted(w.codec, w.plan, s.log, s.core, p, session, Entry(id, session, p.frame));
    }
    CommitKept(w, s, t, r, session);
  }

  lemma KeptAccounted(w: World, s: System)
    requires Kept(w, s)
    ensures Accounted(w.codec, w.plan, s.log, s.core) && ContextsFit(w.plan, s.core.contexts)
  {
  }

  /** A replayed capture without a tombstone is resolved under its context, in one of two ways. */
  lemma ReplayCases(codec: Codec, c: Tables, p: Parcel)
    requires CommitReplayed(codec, c, p).Resolved? && codec.identity(p.frame).Some?
    requires FindTombstone(c.tombs, codec.identity(p.frame).value).None?
    ensures var id := codec.identity(p.frame).value;
            Deliverable(codec, p) && (id.device, id.boot) in c.contexts &&
            var context := c.contexts[(id.device, id.boot)];
            CommitReplayed(codec, c, p) ==
              if Open(c, context.session) then CommitDelivery(codec, c, p, context.policy, context.session)
              else CommitTerminalReplay(codec, c, p, context.session, context.policy)
  {
    hide CommitDelivery, CommitTerminalReplay, FindTombstone, Deliverable;
  }

  lemma ReplayNew(codec: Codec, plan: Plan, log: Log, c: Tables, p: Parcel)
    requires Accounted(codec, plan, log, c) && ContextsFit(plan, c.contexts)
    requires CommitReplayed(codec, c, p).Resolved? && codec.identity(p.frame).Some?
    requires FindTombstone(c.tombs, codec.identity(p.frame).value).None?
    requires !Logged(log, codec.identity(p.frame).value)
    ensures var id := codec.identity(p.frame).value;
            (id.device, id.boot) in c.contexts &&
            Accounted(codec, plan, log + [Entry(id, c.contexts[(id.device, id.boot)].session, p.frame)],
                      CommitReplayed(codec, c, p).tables)
  {
    hide Accounted, CommitReplayed, CommitDelivery, CommitTerminalReplay, FindTombstone, Deliverable, Logged;
    var id := codec.identity(p.frame).value;
    ReplayCases(codec, c, p);
    var context := c.contexts[(id.device, id.boot)];
    var e := Entry(id, context.session, p.frame);
    assert context.session != "" && context.policy == plan(context.session);
    if Open(c, context.session) {
      CommitNewAccounted(codec, plan, log, c, p, context.session, e);
    } else {
      TerminalReplayAccounted(codec, plan, log, c, p, context.session, e);
    }
  }

  lemma ReplayKept(w: World, s: System)
    requires Kept(w, s) && Next(w, s, CommitReplay).Some? && !Forgetful(w, s, CommitReplay)
    ensures Kept(w, Next(w, s, CommitReplay).value)
  {
    hide Kept, ClientCommitReplay, CommitReplayed, Accounted, FindTombstone, Forgetful, Forgotten, ContextsFit, LogAfter;
    ReplayDoes(w, s);
    var t := Next(w, s, CommitReplay).value;
    var p := s.client.parcel;
    var id := w.codec.identity(p.frame).value;
    var r := CommitReplayed(w.codec, s.core, p);
    ReplayContexts(w.codec, s.core, p);
    Handoff.ReplayIdentities(w.codec, s.core, p);
    if r.Resolved? && FindTombstone(s.core.tombs, id).None? {
      CommitRemembers(w, s, CommitReplay);
      Unforgotten(s, id);
      KeptAccounted(w, s);
      ReplayNew(w.codec, w.plan, s.log, s.core, p);
    }
    CommitKept(w, s, t, r, ContextSession(w, s));
  }

  /** A forgotten capture that is committed is counted again. */
  lemma ForgetfulRepeats(w: World, s: System, a: Action)
    requires Forgetful(w, s, a)
    ensures !DistinctEntries(Next(w, s, a).value.log)
  {
    var id := w.codec.identity(s.client.parcel.frame).value;
    var t := Next(w, s, a).value;
    if a.CommitLive? {
      LiveDoes(w, s, a.session);
    } else {
      ReplayDoes(w, s);
    }
    hide CommitDelivery, CommitReplayed, ClientCommitLive, ClientCommitReplay, FindTombstone;
    var e :| e in s.log && e.identity == id;
    var i :| 0 <= i < |s.log| && s.log[i] == e;
    assert t.log[i] == e && t.log[|s.log|].identity == id;
  }

  // ---------------------------------------------------------------- all steps, and runs

  predicate TouchesCore(a: Action) {
    a.CommitLive? || a.CommitReplay? || a.SaveSession? || a.EndSession? || a.SetContexts?
  }

  lemma CoreUntouched(w: World, s: System, a: Action)
    requires Next(w, s, a).Some? && !TouchesCore(a)
    ensures Next(w, s, a).value.core == s.core && Next(w, s, a).value.log == s.log
  {
    hide Spool.Store, Spool.Mark, DeviceMaySend, Deliverable;
  }

  lemma SessionStepKept(w: World, s: System, a: Action)
    requires Kept(w, s) && Next(w, s, a).Some? && (a.SaveSession? || a.EndSession? || a.SetContexts?)
    ensures Kept(w, Next(w, s, a).value) && Next(w, s, a).value.log == s.log
  {
    assert a.EndSession? ==> AccountedExcept(w.codec, w.plan, s.log, s.core, a.session) by {
      hide ArchiveMatches, LatestMatches, ResolutionsMatch, StatsMatch, TombstonesMatch, LogWellFormed;
    }
    hide Accounted, AccountedExcept, ContextsFit, FinalizeSession;
    if a.SaveSession? {
      SessionRowAccounted(w.codec, w.plan, s.log, s.core, a.session, a.summary);
    } else if a.EndSession? {
      FinalizeAccounted(w.codec, w.plan, s.log, s.core, a.session, a.payload, a.payload.policy);
      FinalizeContexts(w.codec, s.core, a.session, a.payload, a.payload.policy);
    } else {
      ContextsAccounted(w.codec, w.plan, s.log, s.core, a.contexts);
    }
  }

  lemma StepKept(w: World, s: System, a: Action)
    requires Kept(w, s) && Next(w, s, a).Some? && !Forgetful(w, s, a)
    ensures Kept(w, Next(w, s, a).value)
  {
    hide Kept, ClientCommitLive, ClientCommitReplay, Forgetful;
    if a.CommitLive? {
      LiveKept(w, s, a.session);
    } else if a.CommitReplay? {
      ReplayKept(w, s);
    } else if TouchesCore(a) {
      SessionStepKept(w, s, a);
    } else {
      CoreUntouched(w, s, a);
      KeptSame(w, s, Next(w, s, a).value);
    }
    hide Next;
  }

  lemma KeptSame(w: World, s: System, t: System)
    requires Kept(w, s) && t.core == s.core && t.log == s.log
    ensures Kept(w, t)
  {
  }

  lemma LogGrows(w: World, s: System, a: Action)
    requires Next(w, s, a).Some?
    ensures s.log <= Next(w, s, a).value.log
  {
    hide ClientCommitLive, ClientCommitReplay, FinalizeSession, ContextsFit, SummaryPolicy;
    if a.CommitLive? {
      LiveDoes(w, s, a.session);
    } else if a.CommitReplay? {
      ReplayDoes(w, s);
    } else if !TouchesCore(a) {
      CoreUntouched(w, s, a);
      hide Next;
    }
    hide CommitDelivery, CommitReplayed, FindTombstone;
  }

  lemma {:induction false} RunLog(w: World, s: System, actions: seq<Action>)
    requires Run(w, s, actions).Some?
    ensures s.log <= Run(w, s, actions).value.log
    decreases |actions|
  {
    hide Next;
    if actions != [] {
      LogGrows(w, s, actions[0]);
      RunLog(w, Next(w, s, actions[0]).value, actions[1..]);
    }
  }

  lemma {:induction false} RunKept(w: World, s: System, actions: seq<Action>)
    requires Kept(w, s) && Run(w, s, actions).Some? && !Forgets(w, s, actions)
    ensures Kept(w, Run(w, s, actions).value)
    decreases |actions|
  {
    hide Kept, Next, Forgetful;
    if actions != [] {
      StepKept(w, s, actions[0]);
      RunKept(w, Next(w, s, actions[0]).value, actions[1..]);
    }
  }

  lemma RepeatedStays(before: Log, after: Log)
    requires before <= after && DistinctEntries(after)
    ensures DistinctEntries(before)
  {
    assert forall i :: 0 <= i < |before| ==> before[i] == after[i];
  }

  lemma {:induction false} ForgettingRepeats(w: World, s: System, actions: seq<Action>)
    requires Run(w, s, actions).Some? && Forgets(w, s, actions)
    ensures !DistinctEntries(Run(w, s, actions).value.log)
    decreases |actions|
  {
    hide Next, Forgetful, DistinctEntries;
    var t := Next(w, s, actions[0]).value;
    if Forgetful(w, s, actions[0]) {
      ForgetfulRepeats(w, s, actions[0]);
      RunLog(w, t, actions[1..]);
      if DistinctEntries(Run(w, s, actions).value.log) {
        RepeatedStays(t.log, Run(w, s, actions).value.log);
      }
    } else {
      ForgettingRepeats(w, t, actions[1..]);
    }
  }

  lemma InitialKept(w: World, s: System)
    requires Initial(w, s)
    ensures Kept(w, s)
  {
    EmptyAccounted(w.codec, w.plan);
  }

  lemma AccountedDistinct(w: World, s: System)
    ensures Accounted(w.codec, w.plan, s.log, s.core) ==> DistinctEntries(s.log)
  {
    hide TombstonesMatch, ResolutionsMatch, StatsMatch, ArchiveMatches, LatestMatches, SummariesMatch;
  }

  // ---------------------------------------------------------------- how long forgetting takes

  lemma ForgottenIsOld(w: World, s: System, id: Identity) returns (k: nat)
    requires Kept(w, s) && Forgotten(s, id)
    ensures k + TOMBSTONE_LIMIT < |s.log| && s.log[k].identity == id
  {
    hide ResolutionsMatch, StatsMatch, ArchiveMatches, LatestMatches, SummariesMatch, ContextsFit, FindTombstone;
    var e :| e in s.log && e.identity == id;
    k :| 0 <= k < |s.log| && s.log[k] == e;
    if |s.log| <= k + |s.core.tombs| {
      RecentRemembered(w.codec, s.log, s.core.tombs, k);
    }
  }

  lemma RecentRemembered(codec: Codec, log: Log, tombs: seq<Tombstone>, k: nat)
    requires TombstonesMatch(codec, log, tombs) && k < |log| <= k + |tombs|
    ensures FindTombstone(tombs, log[k].identity).Some?
  {
    var i := k + |tombs| - |log|;
    assert SameCapture(codec, tombs[i], Remembers(log, tombs, i));
    assert tombs[i] in tombs;
  }

  /** Before the core first resolves a capture again, 4096 others were resolved since. */
  lemma {:induction false} ForgettingTakesLong(w: World, s: System, actions: seq<Action>) returns (i: nat, k: nat)
    requires Kept(w, s) && Run(w, s, actions).Some? && Forgets(w, s, actions)
    ensures i < |actions| && Run(w, s, actions[..i]).Some? && Forgetful(w, Run(w, s, actions[..i]).value, actions[i])
    ensures var m := Run(w, s, actions[..i]).value;
            k + 4096 < |m.log| && m.log <= Run(w, s, actions).value.log &&
            w.codec.identity(m.client.parcel.frame) == Some(m.log[k].identity)
    decreases |actions|
  {
    hide Kept, Next;
    if Forgetful(w, s, actions[0]) {
      i := 0;
      assert actions[..0] == [];
      k := ForgottenIsOld(w, s, w.codec.identity(s.client.parcel.frame).value);
      RunLog(w, s, actions);
    } else {
      hide Forgetful;
      var t := Next(w, s, actions[0]).value;
      StepKept(w, s, actions[0]);
      i, k := ForgettingTakesLong(w, t, actions[1..]);
      History.RunPrefix(w, s, actions, i);
      i := i + 1;
    }
  }

  // ---------------------------------------------------------------- the archive

  ghost predicate FrameLogged(log: Log, frame: seq<byte>) {
    exists e :: e in log && e.frame == frame
  }

  predicate RowHonest(codec: Codec, row: ArchiveRow) {
    codec.identity(row.frame) == Some(row.identity)
  }

  /** Whatever was forgotten: no two rows of one identity, every row is keyed by the identity in its
      bytes, and all frames kept are resolved captures. */
  ghost predicate ArchiveSound(codec: Codec, log: Log, archive: seq<ArchiveRow>) {
    DistinctRows(archive) && forall row :: row in archive ==> RowHonest(codec, row) && FrameLogged(log, row.frame)
  }

  ghost predicate LatestSound(log: Log, latest: map<SessionId, Parcel>) {
    forall s :: s in latest ==> FrameLogged(log, latest[s].frame)
  }

  ghost predicate Sound(codec: Codec, log: Log, c: Tables) {
    ArchiveSound(codec, log, c.archive) && LatestSound(log, c.latest)
  }

  lemma SoundGrows(codec: Codec, log: Log, more: Log, c: Tables)
    requires Sound(codec, log, c) && log <= more
    ensures Sound(codec, more, c)
  {
    forall frame | FrameLogged(log, frame) ensures FrameLogged(more, frame) {
      var e :| e in log && e.frame == frame;
      assert e in more;
    }
  }

  lemma ArchiveKeepsSound(codec: Codec, log: Log, archive: seq<ArchiveRow>, row: ArchiveRow)
    requires ArchiveSound(codec, log, archive) && RowHonest(codec, row) && FrameLogged(log, row.frame)
    ensures Archive(archive, row).Some? ==> ArchiveSound(codec, log, Archive(archive, row).value)
  {
    hide FrameLogged, RowHonest;
    if FindArchived(archive, row.identity).None? {
      var more := archive + [row];
      assert forall i :: 0 <= i < |archive| ==> more[i] == archive[i] && archive[i] in archive;
    }
  }

  lemma {:induction false} WithoutIsSound(codec: Codec, log: Log, archive: seq<ArchiveRow>, session: SessionId)
    requires ArchiveSound(codec, log, archive)
    ensures ArchiveSound(codec, log, WithoutSession(archive, session))
  {
    hide FrameLogged, RowHonest;
    if archive != [] {
      var rest, last := archive[..|archive| - 1], archive[|archive| - 1];
      assert forall row :: row in rest ==> row in archive;
      WithoutIsSound(codec, log, rest, session);
      var kept := WithoutSession(rest, session);
      forall i | 0 <= i < |kept| ensures kept[i].identity != last.identity {
        WithoutMembers(rest, session, kept[i]);
      }
    }
  }

  lemma FreezeSound(codec: Codec, log: Log, c: Tables, session: SessionId)
    requires Sound(codec, log, c)
    ensures var r := FinalizeLatest(codec, c, session); r.Some? ==> Sound(codec, log, r.value)
  {
    hide ArchiveSound, FrameLogged, Archive;
    if session in c.latest {
      var frame := c.latest[session].frame;
      if codec.identity(frame).Some? {
        ArchiveKeepsSound(codec, log, c.archive, ArchiveRow(codec.identity(frame).value, session, frame));
      }
    }
  }

  lemma FinalizeSound(codec: Codec, log: Log, c: Tables, session: SessionId, payload: Summary, policy: SavePolicy)
    requires Sound(codec, log, c)
    ensures var r := FinalizeSession(codec, c, session, payload, policy); r.Some? ==> Sound(codec, log, r.value)
  {
    hide FinalizeLatest, ArchiveSound, LatestSound, RowsOf, TombstonesOf;
    FreezeSound(codec, log, c, session);
  }

  lemma CommitSound(codec: Codec, log: Log, c: Tables, p: Parcel, policy: SavePolicy, session: SessionId)
    requires Sound(codec, log, c) && FrameLogged(log, p.frame)
    ensures var r := CommitDelivery(codec, c, p, policy, session); r.Resolved? ==> Sound(codec, log, r.tables)
  {
    hide ArchiveSound, FrameLogged, Archive, FindTombstone, Prune, CountOne;
    if codec.identity(p.frame).Some? {
      ArchiveKeepsSound(codec, log, c.archive, ArchiveRow(codec.identity(p.frame).value, session, p.frame));
    }
  }

  lemma TerminalSound(codec: Codec, log: Log, c: Tables, p: Parcel, session: SessionId, policy: SavePolicy)
    requires Sound(codec, log, c) && FrameLogged(log, p.frame) && session in c.sessions && codec.identity(p.frame).Some?
    ensures var r := CommitTerminalReplay(codec, c, p, session, policy); r.Resolved? ==> Sound(codec, log, r.tables)
  {
    hide ArchiveSound, LatestSound, FrameLogged, Archive, FindTombstone, Prune, CountOne, FinalizeSession, WithoutSession,
      DiscardSession, TombstoneFor;
    var row := ArchiveRow(codec.identity(p.frame).value, session, p.frame);
    var kept := if policy.SaveLast? then WithoutSession(c.archive, session) else c.archive;
    var tombs := if policy.SaveLast? then DiscardSession(c.tombs, session) else c.tombs;
    WithoutIsSound(codec, log, c.archive, session);
    ArchiveKeepsSound(codec, log, kept, row);
    var archive := if policy.SaveNone? then Some(kept) else Archive(kept, row);
    if archive.Some? {
      var resolution := if policy.SaveNone? then DiscardedByPolicy else RawArchived;
      var after := c.(
        archive := archive.value, tombs := Prune(tombs + [TombstoneFor(codec, p, resolution, session)]),
        stats := CountOne(c.stats, session, row.identity.capture));
      FinalizeSound(codec, log, after, session, c.sessions[session], policy);
    }
  }

  lemma ReplaySound(codec: Codec, log: Log, c: Tables, p: Parcel)
    requires Sound(codec, log, c) && FrameLogged(log, p.frame)
    ensures var r := CommitReplayed(codec, c, p); r.Resolved? ==> Sound(codec, log, r.tables)
  {
    hide Sound, FrameLogged, FindTombstone, CommitDelivery, CommitTerminalReplay, Deliverable;
    DeliverableIdentity(codec, p);
    if Deliverable(codec, p) {
      var id := codec.identity(p.frame).value;
      if (id.device, id.boot) in c.contexts {
        var context := c.contexts[(id.device, id.boot)];
        CommitSound(codec, log, c, p, context.policy, context.session);
        if context.session in c.sessions {
          TerminalSound(codec, log, c, p, context.session, context.policy);
        }
      }
    }
  }

  lemma DeliverableIdentity(codec: Codec, p: Parcel)
    ensures Deliverable(codec, p) ==> codec.identity(p.frame).Some?
  {
  }

  /** A remembered delivery changes nothing; any other is logged with its bytes. */
  lemma CommittedIsLogged(w: World, s: System, t: System, r: Outcome, session: SessionId)
    requires CommitDoes(w, s, t, r, session) && r.Resolved?
    requires FindTombstone(s.core.tombs, w.codec.identity(s.client.parcel.frame).value).None?
    ensures s.log <= t.log && FrameLogged(t.log, s.client.parcel.frame)
  {
    hide FindTombstone;
    assert t.log[|s.log|] in t.log;
  }

  lemma CommitStepSound(w: World, s: System, a: Action)
    requires Sound(w.codec, s.log, s.core) && Next(w, s, a).Some? && (a.CommitLive? || a.CommitReplay?)
    ensures Sound(w.codec, Next(w, s, a).value.log, Next(w, s, a).value.core)
  {
    var t := Next(w, s, a).value;
    var p := s.client.parcel;
    var r := if a.CommitLive? then CommitDelivery(w.codec, s.core, p, w.plan(a.session), a.session)
             else CommitReplayed(w.codec, s.core, p);
    var session := if a.CommitLive? then a.session else ContextSession(w, s);
    if a.CommitLive? { LiveDoes(w, s, a.session); } else { ReplayDoes(w, s); }
    hide Next, Sound, CommitDelivery, CommitReplayed, FindTombstone, ContextSession, FrameLogged;
    if r.Resolved? {
      if FindTombstone(s.core.tombs, w.codec.identity(p.frame).value).None? {
        CommittedIsLogged(w, s, t, r, session);
        SoundGrows(w.codec, s.log, t.log, s.core);
        if a.CommitLive? {
          CommitSound(w.codec, t.log, s.core, p, w.plan(a.session), a.session);
        } else {
          ReplaySound(w.codec, t.log, s.core, p);
        }
      } else if a.CommitLive? {
        CommitShape(w.codec, s.core, p, w.plan(a.session), a.session);
      } else {
        Handoff.ReplayIdentities(w.codec, s.core, p);
      }
    }
  }

  lemma StepSound(w: World, s: System, a: Action)
    requires Sound(w.codec, s.log, s.core) && Next(w, s, a).Some?
    ensures Sound(w.codec, Next(w, s, a).value.log, Next(w, s, a).value.core)
  {
    hide ArchiveSound, LatestSound, ClientCommitLive, ClientCommitReplay, FinalizeSession, ContextsFit, SummaryPolicy;
    if a.CommitLive? || a.CommitReplay? {
      CommitStepSound(w, s, a);
      hide Next;
    } else if a.EndSession? {
      FinalizeSound(w.codec, s.log, s.core, a.session, a.payload, a.payload.policy);
    } else if !TouchesCore(a) {
      CoreUntouched(w, s, a);
      hide Next;
    }
  }

  lemma {:induction false} RunSound(w: World, s: System, actions: seq<Action>)
    requires Sound(w.codec, s.log, s.core) && Run(w, s, actions).Some?
    ensures Sound(w.codec, Run(w, s, actions).value.log, Run(w, s, actions).value.core)
    decreases |actions|
  {
    hide Sound, Next;
    if actions != [] {
      StepSound(w, s, actions[0]);
      RunSound(w, Next(w, s, actions[0]).value, actions[1..]);
    }
  }

  // ---------------------------------------------------------------- what every run guarantees

  /** The exact condition, over all runs with crashes and lost acknowledgements anywhere: each
      identity is resolved once, and all tables agree with the log of resolutions, if and only if no
      commit went through for a capture whose tombstone had been pruned. No run that resolves at most
      4096 captures contains such a commit. */
  lemma ResolvedExactlyOnce(w: World, s: System, actions: seq<Action>)
    requires Initial(w, s) && Run(w, s, actions).Some?
    ensures var t := Run(w, s, actions).value;
            (DistinctEntries(t.log) <==> !Forgets(w, s, actions)) &&
            (Accounted(w.codec, w.plan, t.log, t.core) <==> !Forgets(w, s, actions)) &&
            (|t.log| <= 4096 ==> !Forgets(w, s, actions))
  {
    InitialKept(w, s);
    hide Run, Initial, Accounted, DistinctEntries, Forgets;
    var t := Run(w, s, actions).value;
    AccountedDistinct(w, t);
    if Forgets(w, s, actions) {
      ForgettingRepeats(w, s, actions);
      var i, k := ForgettingTakesLong(w, s, actions);
    } else {
      RunKept(w, s, actions);
    }
  }

  /** No identity is archived twice in any run, and every row is a resolved capture keyed by the
      identity in its own bytes. While nothing was forgotten a tombstone says RAW_ARCHIVED exactly
      when the archive holds the frame whose identity, checksum and digest it records. */
  lemma ArchivedAtMostOnce(w: World, s: System, actions: seq<Action>)
    requires Initial(w, s) && Run(w, s, actions).Some?
    ensures var t := Run(w, s, actions).value;
            ArchiveSound(w.codec, t.log, t.core.archive) &&
            (!Forgets(w, s, actions) ==>
              forall x :: x in t.core.tombs ==> TombstoneHonest(w.codec, t.core.archive, x))
  {
    InitialKept(w, s);
    RunSound(w, s, actions);
    hide Run, Initial, Kept, ArchiveSound, LatestSound, Forgets, TombstoneHonest;
    var t := Run(w, s, actions).value;
    if !Forgets(w, s, actions) {
      RunKept(w, s, actions);
      forall x | x in t.core.tombs ensures TombstoneHonest(w.codec, t.core.archive, x) {
        TombstoneTruthful(w, t, x);
      }
    }
  }

  ghost predicate TombstoneHonest(codec: Codec, archive: seq<ArchiveRow>, x: Tombstone) {
    x.resolution.RawArchived? <==>
      exists a :: a in archive && a.identity == x.identity && a.session == x.session &&
        codec.crc(a.frame) == x.crc && codec.sha(a.frame) == x.sha
  }

  lemma TombstoneTruthful(w: World, t: System, x: Tombstone)
    requires Kept(w, t) && x in t.core.tombs
    ensures TombstoneHonest(w.codec, t.core.archive, x)
  {
    hide StatsMatch, LatestMatches, SummariesMatch, ContextsFit;
    var c, log := t.core, t.log;
    var i :| 0 <= i < |c.tombs| && c.tombs[i] == x;
    var e := Remembers(log, c.tombs, i);
    assert SameCapture(w.codec, x, e) && e in log;
    assert x.resolution.RawArchived? <==> RowFor(e) in c.archive;
    forall a | a in c.archive && a.identity == x.identity ensures a == RowFor(e) {
      ArchivedIsLogged(w.plan, log, c, a);
      var f :| f in log && RowFor(f) == a;
      EntryUnique(w.codec, log, e, f);
    }
  }

  /** Session accounting while nothing was forgotten: an ended session acquired what the log counts
      for it, saved all, none or one of them as its policy says, discarded the rest, and names the
      last capture resolved and the last one saved; under SAVE_LAST they are the same. */
  lemma SessionsAccounted(w: World, s: System, actions: seq<Action>, session: SessionId)
    requires Initial(w, s) && Run(w, s, actions).Some? && !Forgets(w, s, actions)
    ensures var t := Run(w, s, actions).value;
            var entries := EntriesOf(t.log, session);
            var rows := RowsOf(t.core.archive, session);
            session in t.core.sessions && t.core.sessions[session].state.Ended? ==>
              var summary := t.core.sessions[session];
              summary.acquired == |entries| &&
              summary.saved == |rows| == SavedCount(w.plan(session), |entries|) &&
              summary.acquired == summary.saved + summary.discarded &&
              (entries != [] ==> summary.lastCapture == Some(entries[|entries| - 1].identity.capture)) &&
              summary.lastSaved == (if rows == [] then None else Some(rows[|rows| - 1].identity.capture)) &&
              (w.plan(session).SaveAll? ==> rows == RowsFor(entries)) &&
              (w.plan(session).SaveLast? && entries != [] ==> rows == [RowFor(entries[|entries| - 1])])
  {
    InitialKept(w, s);
    RunKept(w, s, actions);
    var t := Run(w, s, actions).value;
    hide Run, Initial, Forgets, RowsOf, EntriesOf, ResolutionsMatch, StatsMatch, TombstonesMatch, LatestMatches, ContextsFit;
    assert RowsOf(t.core.archive, session) ==
      ExpectedRows(w.plan(session), Open(t.core, session), EntriesOf(t.log, session));
    ExpectedCount(w.plan(session), EntriesOf(t.log, session));
  }
}
