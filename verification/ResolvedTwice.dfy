/** That forgetting does happen: a run in which early captures push one capture out of the core's
    memory before the bridge has learnt that it was resolved. */
module ResolvedTwice {
  import opened Bytes
  import opened Delivery
  import opened Spool
  import opened CoreStore
  import opened Accounting
  import opened DeliverySystem
  import opened ExactlyOnce
  import opened EarlyCapture
  import Handoff
  import Lockstep

  /** A frame that can be spooled and delivered. */
  predicate Good(codec: Codec, frame: seq<byte>) {
    MIN_INNER <= |frame| <= MAX_INNER && codec.identity(frame).Some?
  }

  predicate AllGood(codec: Codec, frames: seq<seq<byte>>) {
    (forall i :: 0 <= i < |frames| ==> Good(codec, frames[i])) &&
    forall i, j :: 0 <= i < j < |frames| ==> codec.identity(frames[i]) != codec.identity(frames[j])
  }

  function SourceOf(frame: seq<byte>): Source {
    Source(0, 0, if frame == [] then 0 else |frame| - 1, 0)
  }

  /** The device sends a frame at once, the core resolves it, and both processes go down before the
      receipt is sent. */
  function Round(frame: seq<byte>, session: SessionId): seq<Action> {
    [Connect(0), DeviceCaptures(frame, SourceOf(frame), 0), SendDelivery, ClientReceives, CommitLive(session),
     ClientDrops, BridgeDrops]
  }

  function Rounds(frames: seq<seq<byte>>, session: SessionId): seq<Action> {
    if frames == [] then [] else Rounds(frames[..|frames| - 1], session) + Round(frames[|frames| - 1], session)
  }

  predicate Down(s: System) {
    s.bridge.BridgeOff? && s.client.ClientOff?
  }

  /** What a round needs: the frame may be sent and stored, and its commit goes through. */
  ghost predicate RoundReady(w: World, s: System, frame: seq<byte>, session: SessionId) {
    !w.strict && Down(s) && Good(w.codec, frame) && DeviceMaySend(w, s, frame) &&
    Store(w.codec, s.spool, frame, SourceOf(frame)).Stored? && Open(s.core, session)
  }

  function RoundParcel(w: World, s: System, frame: seq<byte>): Parcel
    requires Store(w.codec, s.spool, frame, SourceOf(frame)).Stored?
  {
    ParcelOf(0, Store(w.codec, s.spool, frame, SourceOf(frame)).row)
  }

  /** Connected, captured, sent: the delivery is in the client's slot. */
  lemma RoundArrives(w: World, s: System, frame: seq<byte>, session: SessionId) returns (t: System)
    requires RoundReady(w, s, frame, session) && Deliverable(w.codec, RoundParcel(w, s, frame))
    ensures Run(w, s, [Connect(0)] + ([DeviceCaptures(frame, SourceOf(frame), 0)] + ([SendDelivery] + [ClientReceives]))) ==
              Some(t)
    ensures var r := Store(w.codec, s.spool, frame, SourceOf(frame));
            t.spool == r.rows && t.stored == s.stored[r.row.identity := r.row.frame] && t.core == s.core && t.log == s.log &&
            t.client == Accepted(RoundParcel(w, s, frame), 0)
  {
    var s1 := Connected(s, 0).value;
    assert DeviceMaySend(w, s1, frame);
    hide Run, Store, Deliverable, DeviceMaySend;
    var s2 := SerialCapture(w, s1, frame, SourceOf(frame), 0).value;
    var row := Store(w.codec, s.spool, frame, SourceOf(frame)).row;
    assert s2.client == Ready && s2.toCore == [] && s2.bridge.serial == Sending(row, 0, ToReading);
    t := LiveArrives(w, s2, row, 0);
    RunOne(w, s, Connect(0));
    RunOne(w, s1, DeviceCaptures(frame, SourceOf(frame), 0));
    hide Next, SerialCapture;
    RunConcat(w, s1, [DeviceCaptures(frame, SourceOf(frame), 0)], [SendDelivery] + [ClientReceives]);
    RunConcat(w, s, [Connect(0)], [DeviceCaptures(frame, SourceOf(frame), 0)] + ([SendDelivery] + [ClientReceives]));
  }

  /** Committed, and both ends gone. */
  lemma RoundEnds(w: World, s: System, session: SessionId) returns (t: System)
    requires s.client.Accepted? && Open(s.core, session) && w.codec.identity(s.client.parcel.frame).Some?
    requires CommitDelivery(w.codec, s.core, s.client.parcel, w.plan(session), session).Resolved?
    ensures Run(w, s, [CommitLive(session)] + ([ClientDrops] + [BridgeDrops])) == Some(t) && Down(t)
    ensures t.spool == s.spool && t.stored == s.stored
    ensures t.core == CommitDelivery(w.codec, s.core, s.client.parcel, w.plan(session), session).tables &&
            t.log == LogAfter(w, s, s.client.parcel, session)
  {
    hide Run, CommitDelivery, LogAfter;
    var s1 := ClientCommitLive(w, s, session).value;
    var s2 := DropClient(s1);
    t := DropBridge(s2);
    RunOne(w, s, CommitLive(session));
    RunOne(w, s1, ClientDrops);
    RunOne(w, s2, BridgeDrops);
    hide Next;
    RunConcat(w, s1, [ClientDrops], [BridgeDrops]);
    RunConcat(w, s, [CommitLive(session)], [ClientDrops] + [BridgeDrops]);
  }

  lemma RoundRuns(w: World, s: System, frame: seq<byte>, session: SessionId) returns (t: System)
    requires RoundReady(w, s, frame, session)
    requires var p := RoundParcel(w, s, frame);
             Deliverable(w.codec, p) && CommitDelivery(w.codec, s.core, p, w.plan(session), session).Resolved?
    ensures Run(w, s, Round(frame, session)) == Some(t) && Down(t)
    ensures var r := Store(w.codec, s.spool, frame, SourceOf(frame));
            t.spool == r.rows && t.stored == s.stored[r.row.identity := r.row.frame]
    ensures var p := RoundParcel(w, s, frame);
            t.core == CommitDelivery(w.codec, s.core, p, w.plan(session), session).tables &&
            w.codec.identity(p.frame).Some? && t.log == LogAfter(w, s, p, session)
  {
    hide Run, Store, Deliverable, CommitDelivery, DeviceMaySend, FindTombstone;
    ParcelIdentity(w.codec, RoundParcel(w, s, frame));
    var m := RoundArrives(w, s, frame, session);
    t := RoundEnds(w, m, session);
    RunConcat(w, s, [Connect(0)] + ([DeviceCaptures(frame, SourceOf(frame), 0)] + ([SendDelivery] + [ClientReceives])),
              [CommitLive(session)] + ([ClientDrops] + [BridgeDrops]));
    RoundParts(frame, session);
  }

  lemma RoundParts(frame: seq<byte>, session: SessionId)
    ensures Round(frame, session) ==
              [Connect(0)] + ([DeviceCaptures(frame, SourceOf(frame), 0)] + ([SendDelivery] + [ClientReceives])) +
              ([CommitLive(session)] + ([ClientDrops] + [BridgeDrops]))
  {
  }

  lemma ParcelIdentity(codec: Codec, p: Parcel)
    ensures Deliverable(codec, p) ==> codec.identity(p.frame).Some?
  {
  }

  // ---------------------------------------------------------------- one round after another

  predicate Among(codec: Codec, frames: seq<seq<byte>>, id: Identity) {
    exists i :: 0 <= i < |frames| && codec.identity(frames[i]) == Some(id)
  }

  predicate LogIs(codec: Codec, log: Log, frames: seq<seq<byte>>) {
    |log| == |frames| &&
    forall i :: 0 <= i < |log| ==> codec.identity(frames[i]) == Some(log[i].identity) && log[i].frame == frames[i]
  }

  /** These frames were resolved in this order, the first is still pending, and nothing runs. */
  ghost predicate Done(w: World, s: System, frames: seq<seq<byte>>) {
    Lockstep.Inv(w, s) && Kept(w, s) && Down(s) && s.core.sessions == map[] && LogIs(w.codec, s.log, frames) &&
    (forall id :: id in s.stored ==> Among(w.codec, frames, id)) &&
    (frames != [] ==> exists p :: p in s.spool.pending && w.codec.identity(frames[0]) == Some(p.identity))
  }

  lemma NewIsReady(w: World, s: System, frames: seq<seq<byte>>, frame: seq<byte>, session: SessionId)
    requires !w.strict && Done(w, s, frames) && Good(w.codec, frame) && session != ""
    requires !Among(w.codec, frames, w.codec.identity(frame).value)
    ensures RoundReady(w, s, frame, session)
    ensures var r := Store(w.codec, s.spool, frame, SourceOf(frame));
            r.rows.pending == s.spool.pending + [r.row] && r.row.frame == frame &&
            Some(r.row.identity) == w.codec.identity(frame)
    ensures var p := RoundParcel(w, s, frame); Deliverable(w.codec, p) && p.frame == frame
    ensures !Logged(s.log, w.codec.identity(frame).value)
  {
    hide Kept, Lockstep.Flow, Handoff.FlightKnown, Among, LogIs;
    var id := w.codec.identity(frame).value;
    assert id !in s.stored;
    assert forall p :: p in s.spool.pending ==> Handoff.RowKnown(w.codec, s.stored, p);
    assert FindIdentity(s.spool.pending, id).None?;
  }

  lemma CommitLeavesSessions(codec: Codec, c: Tables, p: Parcel, policy: SavePolicy, session: SessionId)
    ensures var r := CommitDelivery(codec, c, p, policy, session); r.Resolved? ==> r.tables.sessions == c.sessions
  {
    hide FindTombstone, Archive, Prune, CountOne, Deliverable;
  }

  lemma AmongMore(codec: Codec, frames: seq<seq<byte>>, frame: seq<byte>, id: Identity)
    ensures Among(codec, frames, id) || codec.identity(frame) == Some(id) ==> Among(codec, frames + [frame], id)
  {
    if Among(codec, frames, id) {
      var i :| 0 <= i < |frames| && codec.identity(frames[i]) == Some(id);
      assert (frames + [frame])[i] == frames[i];
    } else {
      assert (frames + [frame])[|frames|] == frame;
    }
  }

  lemma NewCommits(w: World, s: System, p: Parcel, session: SessionId)
    requires Kept(w, s) && s.core.sessions == map[] && session != "" && Deliverable(w.codec, p)
    requires w.codec.identity(p.frame).Some? && !Logged(s.log, w.codec.identity(p.frame).value)
    ensures Open(s.core, session) && FindTombstone(s.core.tombs, w.codec.identity(p.frame).value).None?
    ensures var r := CommitDelivery(w.codec, s.core, p, w.plan(session), session);
            r.Resolved? && r.tables.sessions == map[] && r.tables.contexts == s.core.contexts &&
            Accounted(w.codec, w.plan, s.log + [Entry(w.codec.identity(p.frame).value, session, p.frame)], r.tables)
  {
    hide Accounted, ContextsFit, CommitDelivery, Deliverable, FindTombstone, Logged;
    var id := w.codec.identity(p.frame).value;
    OpenAny(s.core, session);
    AccountedParts(w.codec, w.plan, s.log, s.core);
    UnloggedIsNew(w.codec, w.plan, s.log, s.core, id);
    CommitNewAccounted(w.codec, w.plan, s.log, s.core, p, session, Entry(id, session, p.frame));
    CommitShape(w.codec, s.core, p, w.plan(session), session);
    CommitLeavesSessions(w.codec, s.core, p, w.plan(session), session);
  }

  lemma DoneMore(w: World, s: System, t: System, frames: seq<seq<byte>>, frame: seq<byte>, row: Pending, session: SessionId)
    requires Done(w, s, frames) && Lockstep.Inv(w, t) && Kept(w, t) && Down(t) && t.core.sessions == map[]
    requires w.codec.identity(frame) == Some(row.identity) && row.frame == frame
    requires t.log == s.log + [Entry(row.identity, session, frame)]
    requires t.stored == s.stored[row.identity := frame] && t.spool.pending == s.spool.pending + [row]
    ensures Done(w, t, frames + [frame])
  {
    hide Lockstep.Inv, Kept, Among;
    forall x | x in t.stored ensures Among(w.codec, frames + [frame], x) {
      AmongMore(w.codec, frames, frame, x);
    }
    assert row in t.spool.pending;
    if frames != [] {
      var q :| q in s.spool.pending && w.codec.identity(frames[0]) == Some(q.identity);
      assert q in t.spool.pending && (frames + [frame])[0] == frames[0];
    } else {
      assert (frames + [frame])[0] == frame;
    }
  }

  lemma DoneKept(w: World, s: System, frames: seq<seq<byte>>)
    requires Done(w, s, frames)
    ensures Lockstep.Inv(w, s) && Kept(w, s) && s.core.sessions == map[]
  {
    hide Lockstep.Inv, Kept;
  }

  lemma KeptAfter(w: World, s: System, t: System)
    requires Kept(w, s) && Accounted(w.codec, w.plan, t.log, t.core) && t.core.contexts == s.core.contexts
    ensures Kept(w, t)
  {
    hide Accounted;
  }

  lemma NewRound(w: World, s: System, frames: seq<seq<byte>>, frame: seq<byte>, session: SessionId) returns (t: System)
    requires !w.strict && Done(w, s, frames) && Good(w.codec, frame) && session != ""
    requires !Among(w.codec, frames, w.codec.identity(frame).value)
    ensures Run(w, s, Round(frame, session)) == Some(t) && Done(w, t, frames + [frame])
  {
    NewIsReady(w, s, frames, frame, session);
    var p := RoundParcel(w, s, frame);
    var row := Store(w.codec, s.spool, frame, SourceOf(frame)).row;
    hide Kept, Done, Accounted, Lockstep.Inv, RoundReady, Store, CommitDelivery, Deliverable, FindTombstone, Logged, Round,
      Run, Among, Open, Down;
    DoneKept(w, s, frames);
    NewCommits(w, s, p, session);
    t := RoundRuns(w, s, frame, session);
    Lockstep.RunKeeps(w, s, Round(frame, session));
    assert t.log == s.log + [Entry(row.identity, session, frame)];
    KeptAfter(w, s, t);
    DoneMore(w, s, t, frames, frame, row, session);
  }

  lemma OpenAny(c: Tables, session: SessionId)
    requires c.sessions == map[]
    ensures Open(c, session)
  {
  }

  lemma AccountedParts(codec: Codec, plan: Plan, log: Log, c: Tables)
    requires Accounted(codec, plan, log, c)
    ensures TombstonesMatch(codec, log, c.tombs) && ArchiveMatches(plan, log, c)
  {
  }

  lemma {:induction false} AllRounds(w: World, s: System, frames: seq<seq<byte>>, session: SessionId) returns (t: System)
    requires !w.strict && Done(w, s, []) && AllGood(w.codec, frames) && session != ""
    ensures Run(w, s, Rounds(frames, session)) == Some(t) && Done(w, t, frames)
    decreases |frames|
  {
    hide Run, Done, Round;
    if frames == [] {
      t := s;
      NoActions(w, s);
    } else {
      var rest, last := frames[..|frames| - 1], frames[|frames| - 1];
      var m := AllRounds(w, s, rest, session);
      assert !Among(w.codec, rest, w.codec.identity(last).value);
      t := NewRound(w, m, rest, last, session);
      assert frames == rest + [last];
      RunConcat(w, s, Rounds(rest, session), Round(last, session));
    }
  }

  lemma NoActions(w: World, s: System)
    ensures Run(w, s, []) == Some(s)
  {
  }

  // ---------------------------------------------------------------- and the first once more

  /** The first of more than 4096 resolutions has no tombstone left. */
  lemma FirstForgotten(codec: Codec, plan: Plan, log: Log, c: Tables)
    requires Accounted(codec, plan, log, c) && |log| == TOMBSTONE_LIMIT + 1
    ensures FindTombstone(c.tombs, log[0].identity).None?
  {
    hide ResolutionsMatch, StatsMatch, ArchiveMatches, LatestMatches, SummariesMatch;
    forall t | t in c.tombs ensures t.identity != log[0].identity {
      var i :| 0 <= i < |c.tombs| && c.tombs[i] == t;
      assert SameCapture(codec, c.tombs[i], Remembers(log, c.tombs, i));
    }
  }

  /** Its bytes may still be archived, and then they are the same. */
  lemma FirstArchived(codec: Codec, plan: Plan, log: Log, c: Tables, session: SessionId)
    requires Accounted(codec, plan, log, c) && log != []
    ensures Archive(c.archive, ArchiveRow(log[0].identity, session, log[0].frame)).Some?
  {
    hide ResolutionsMatch, StatsMatch, TombstonesMatch, LatestMatches, SummariesMatch;
    var kept := FindArchived(c.archive, log[0].identity);
    if kept.Some? {
      ArchivedIsLogged(plan, log, c, kept.value);
      var e :| e in log && RowFor(e) == kept.value;
      EntryUnique(codec, log, e, log[0]);
    }
  }

  lemma CommitsAgain(codec: Codec, c: Tables, p: Parcel, policy: SavePolicy, session: SessionId)
    requires session != "" && Deliverable(codec, p) && codec.identity(p.frame).Some?
    requires var id := codec.identity(p.frame).value;
             FindTombstone(c.tombs, id).None? && Archive(c.archive, ArchiveRow(id, session, p.frame)).Some?
    ensures CommitDelivery(codec, c, p, policy, session).Resolved?
  {
    hide FindTombstone, Archive, Deliverable, Prune, CountOne;
  }

  lemma OldIsReady(w: World, s: System, frames: seq<seq<byte>>, session: SessionId)
    requires !w.strict && Done(w, s, frames) && frames != [] && Good(w.codec, frames[0])
    ensures RoundReady(w, s, frames[0], session)
    ensures var p := RoundParcel(w, s, frames[0]); Deliverable(w.codec, p) && p.frame == frames[0]
  {
    hide Kept, Lockstep.Flow, Handoff.FlightKnown, Among;
    var id := w.codec.identity(frames[0]).value;
    var q :| q in s.spool.pending && w.codec.identity(frames[0]) == Some(q.identity);
    var row := FindIdentity(s.spool.pending, id).value;
    assert Handoff.RowKnown(w.codec, s.stored, row);
    assert s.log[0] in s.log && s.stored[id] == frames[0];
  }

  lemma OldCommits(w: World, s: System, frames: seq<seq<byte>>, session: SessionId)
    requires !w.strict && Done(w, s, frames) && |frames| == TOMBSTONE_LIMIT + 1 && Good(w.codec, frames[0]) && session != ""
    ensures RoundReady(w, s, frames[0], session)
    ensures var p := RoundParcel(w, s, frames[0]);
            Deliverable(w.codec, p) && p.frame == frames[0] &&
            CommitDelivery(w.codec, s.core, p, w.plan(session), session).Resolved?
    ensures |s.log| == |frames| && w.codec.identity(frames[0]) == Some(s.log[0].identity) &&
            FindTombstone(s.core.tombs, s.log[0].identity).None?
  {
    OldIsReady(w, s, frames, session);
    hide Lockstep.Inv, Accounted, ContextsFit, RoundReady, Deliverable, CommitDelivery, Archive, FindTombstone, Store, Among;
    FirstForgotten(w.codec, w.plan, s.log, s.core);
    FirstArchived(w.codec, w.plan, s.log, s.core, session);
    CommitsAgain(w.codec, s.core, RoundParcel(w, s, frames[0]), w.plan(session), session);
  }

  lemma OldRound(w: World, s: System, frames: seq<seq<byte>>, session: SessionId) returns (t: System)
    requires !w.strict && Done(w, s, frames) && |frames| == TOMBSTONE_LIMIT + 1 && Good(w.codec, frames[0]) && session != ""
    ensures Run(w, s, Round(frames[0], session)) == Some(t)
    ensures |s.log| == TOMBSTONE_LIMIT + 1 && t.log == s.log + [Entry(s.log[0].identity, session, frames[0])]
  {
    hide Run, Done, Good, Round, RoundReady, Deliverable, CommitDelivery, FindTombstone, Store, Down;
    OldCommits(w, s, frames, session);
    t := RoundRuns(w, s, frames[0], session);
  }

  /** Resolved twice: whatever the policy, 4097 frames sent early and one of them sent again. The core
      resolves 4097 captures and counts 4098. */
  lemma EarlyFramesForget(w: World, s: System, frames: seq<seq<byte>>, session: SessionId)
    requires !w.strict && Initial(w, s) && s.spool.pending == [] && session != ""
    requires AllGood(w.codec, frames) && |frames| == 4097
    ensures var actions := Rounds(frames, session) + Round(frames[0], session);
            Run(w, s, actions).Some? && Forgets(w, s, actions) &&
            var log := Run(w, s, actions).value.log;
            |log| == 4098 && log[0].identity == log[4097].identity
  {
    StartsDone(w, s);
    assert Good(w.codec, frames[0]);
    hide Run, Initial, Done, Accounted, AllGood, Good, Round, Rounds, Forgets, DistinctEntries;
    var m := AllRounds(w, s, frames, session);
    var t := OldRound(w, m, frames, session);
    RunConcat(w, s, Rounds(frames, session), Round(frames[0], session));
    ResolvedExactlyOnce(w, s, Rounds(frames, session) + Round(frames[0], session));
    TwiceIsNotOnce(t.log, TOMBSTONE_LIMIT + 1);
  }

  lemma TwiceIsNotOnce(log: Log, i: nat)
    requires 0 < i < |log| && log[0].identity == log[i].identity
    ensures !DistinctEntries(log)
  {
  }

  lemma StartsDone(w: World, s: System)
    requires Initial(w, s) && s.spool.pending == []
    ensures Done(w, s, [])
  {
    Lockstep.InitialInv(w, s);
    InitialKept(w, s);
    hide Lockstep.Inv, Kept, WellFormed;
  }
}
