/** No capture is lost: in every run, with crashes and disconnects anywhere, a frame the
    spool ever stored is still pending unchanged or has been resolved by the core. */
module Handoff {
  import opened Bytes
  import opened Delivery
  import opened Spool
  import opened CoreStore
  import opened Accounting
  import opened DeliverySystem

  type Stored = map<Identity, seq<byte>>

  /** The parcel carries the frame the spool stored under its identity. */
  predicate Known(codec: Codec, stored: Stored, p: Parcel) {
    var id := codec.identity(p.frame);
    id.Some? && id.value in stored && stored[id.value] == p.frame && Deliverable(codec, p)
  }

  predicate RowKnown(codec: Codec, stored: Stored, row: Pending) {
    RowFits(codec, row) && row.identity in stored && stored[row.identity] == row.frame
  }

  predicate RowsKnown(codec: Codec, stored: Stored, rows: seq<Pending>) {
    forall p :: p in rows ==> RowKnown(codec, stored, p)
  }

  ghost predicate PendingOrLogged(pending: seq<Pending>, log: Log, id: Identity) {
    (exists p :: p in pending && p.identity == id) || Logged(log, id)
  }

  /** Every frame ever stored is pending or resolved, and the books agree on its bytes. */
  ghost predicate NothingLost(w: World, s: System) {
    WellFormed(w.codec, s.spool) && RowsKnown(w.codec, s.stored, s.spool.pending) &&
    (forall r :: r in s.spool.markers ==> s.spool.markers[r].identity in s.stored) &&
    (forall e :: e in s.log ==> e.identity in s.stored && s.stored[e.identity] == e.frame) &&
    (forall t :: t in s.core.tombs ==> Logged(s.log, t.identity)) &&
    (forall id :: id in s.stored ==> PendingOrLogged(s.spool.pending, s.log, id))
  }

  predicate ToCoreKnown(codec: Codec, stored: Stored, toCore: seq<ToCore>) {
    forall m :: m in toCore && m.Deliver? ==> Known(codec, stored, m.parcel)
  }

  ghost predicate ClientKnown(codec: Codec, stored: Stored, log: Log, client: Client) {
    match client
    case Accepted(p, _) => Known(codec, stored, p)
    case Committed(p, receipt, _) =>
      Known(codec, stored, p) && receipt == ReceiptFor(codec, p) && Logged(log, receipt.identity)
    case _ => true
  }

  /** A receipt on its way to the bridge names a capture the core has resolved. */
  ghost predicate ToBridgeKnown(log: Log, toBridge: seq<ToBridge>) {
    forall m :: m in toBridge && m.CommitRequest? ==> Logged(log, m.receipt.identity)
  }

  predicate ResumeKnown(codec: Codec, stored: Stored, resume: Resume) {
    resume.ToReplay? ==> RowsKnown(codec, stored, resume.rest)
  }

  predicate SerialKnown(codec: Codec, stored: Stored, bridge: Bridge) {
    bridge.BridgeOn? ==>
      match bridge.serial
      case Sending(row, _, resume) => RowKnown(codec, stored, row) && ResumeKnown(codec, stored, resume)
      case Waiting(_, _, resume) => ResumeKnown(codec, stored, resume)
      case Replaying(rest) => RowsKnown(codec, stored, rest)
      case _ => true
  }

  /** What is in flight: parcels carry stored frames, receipts name resolved captures. */
  ghost predicate FlightKnown(w: World, s: System) {
    ToCoreKnown(w.codec, s.stored, s.toCore) && ClientKnown(w.codec, s.stored, s.log, s.client) &&
    ToBridgeKnown(s.log, s.toBridge) && SerialKnown(w.codec, s.stored, s.bridge)
  }

  ghost predicate Inv(w: World, s: System) {
    NothingLost(w, s) && FlightKnown(w, s)
  }

  // ---------------------------------------------------------------- the core only adds tombstones it logs

  /** Identities with a tombstone after a transaction: those before, and possibly one more. */
  ghost predicate OnlyAdds(before: seq<Tombstone>, after: seq<Tombstone>, identity: Identity) {
    forall t :: t in after ==> t.identity == identity || exists u :: u in before && u.identity == t.identity
  }

  ghost predicate SameIdentities(before: seq<Tombstone>, after: seq<Tombstone>) {
    forall t :: t in after ==> exists u :: u in before && u.identity == t.identity
  }

  lemma FinalizeIdentities(codec: Codec, c: Tables, s: SessionId, payload: Summary, policy: SavePolicy)
    ensures var r := FinalizeSession(codec, c, s, payload, policy);
            r.Some? ==> SameIdentities(c.tombs, r.value.tombs)
  {
    var r := FinalizeSession(codec, c, s, payload, policy);
    if r.Some? {
      forall t | t in r.value.tombs ensures exists u :: u in c.tombs && u.identity == t.identity {
        var i :| 0 <= i < |r.value.tombs| && r.value.tombs[i] == t;
        assert c.tombs[i].identity == t.identity;
      }
    }
  }

  lemma PruneIdentities(before: seq<Tombstone>, tombs: seq<Tombstone>, t: Tombstone)
    requires SameIdentities(before, tombs)
    ensures OnlyAdds(before, Prune(tombs + [t]), t.identity)
  {
    forall x | x in Prune(tombs + [t]) ensures x in tombs || x == t {
    }
  }

  lemma CommitIdentities(codec: Codec, c: Tables, p: Parcel, policy: SavePolicy, session: SessionId)
    requires codec.identity(p.frame).Some?
    ensures var r := CommitDelivery(codec, c, p, policy, session);
            r.Resolved? ==>
              r.receipt == ReceiptFor(codec, p) && OnlyAdds(c.tombs, r.tables.tombs, r.receipt.identity)
    ensures var r := CommitDelivery(codec, c, p, policy, session);
            r.Resolved? && FindTombstone(c.tombs, codec.identity(p.frame).value).Some? ==> r.tables == c
  {
    hide Prune, CountOne, Archive, FindTombstone, Deliverable;
    var t := TombstoneFor(codec, p, PolicyResolution(policy), session);
    PruneIdentities(c.tombs, c.tombs, t);
  }

  lemma DiscardIdentities(tombs: seq<Tombstone>, session: SessionId)
    ensures SameIdentities(tombs, tombs) && SameIdentities(tombs, DiscardSession(tombs, session))
  {
    var after := DiscardSession(tombs, session);
    forall x | x in after ensures exists u :: u in tombs && u.identity == x.identity {
      var i :| 0 <= i < |after| && after[i] == x;
      assert tombs[i].identity == x.identity;
    }
  }

  lemma TombstoneIdentity(codec: Codec, p: Parcel, resolution: Resolution, session: SessionId)
    requires codec.identity(p.frame).Some?
    ensures TombstoneFor(codec, p, resolution, session).identity == ReceiptFor(codec, p).identity
  {
  }

  lemma Through(before: seq<Tombstone>, mid: seq<Tombstone>, after: seq<Tombstone>, id: Identity)
    requires OnlyAdds(before, mid, id) && SameIdentities(mid, after)
    ensures OnlyAdds(before, after, id)
  {
  }

  /** The tables a late frame leaves just before its session is recounted. */
  lemma TerminalShape(codec: Codec, c: Tables, p: Parcel, session: SessionId, policy: SavePolicy) returns (mid: Tables)
    requires session in c.sessions && codec.identity(p.frame).Some?
    requires CommitTerminalReplay(codec, c, p, session, policy).Resolved?
    requires FindTombstone(c.tombs, codec.identity(p.frame).value).None?
    ensures var r := CommitTerminalReplay(codec, c, p, session, policy);
            r.receipt == ReceiptFor(codec, p) &&
            FinalizeSession(codec, mid, session, c.sessions[session], policy) == Some(r.tables)
    ensures mid.tombs == Prune((if policy.SaveLast? then DiscardSession(c.tombs, session) else c.tombs) +
                               [TombstoneFor(codec, p, if policy.SaveNone? then DiscardedByPolicy else RawArchived, session)])
  {
    hide Prune, CountOne, Archive, FinalizeSession, WithoutSession, FindTombstone, DiscardSession, TombstoneFor;
    var receipt := ReceiptFor(codec, p);
    var kept := if policy.SaveLast? then WithoutSession(c.archive, session) else c.archive;
    var tombs := if policy.SaveLast? then DiscardSession(c.tombs, session) else c.tombs;
    var archive := if policy.SaveNone? then Some(kept) else Archive(kept, ArchiveRow(receipt.identity, session, p.frame));
    var resolution := if policy.SaveNone? then DiscardedByPolicy else RawArchived;
    mid := c.(archive := archive.value, tombs := Prune(tombs + [TombstoneFor(codec, p, resolution, session)]),
              stats := CountOne(c.stats, session, receipt.identity.capture));
  }

  lemma TerminalIdentities(codec: Codec, c: Tables, p: Parcel, session: SessionId, policy: SavePolicy)
    requires session in c.sessions && codec.identity(p.frame).Some?
    ensures var r := CommitTerminalReplay(codec, c, p, session, policy);
            r.Resolved? ==>
              r.receipt == ReceiptFor(codec, p) && OnlyAdds(c.tombs, r.tables.tombs, r.receipt.identity)
    ensures var r := CommitTerminalReplay(codec, c, p, session, policy);
            r.Resolved? && FindTombstone(c.tombs, codec.identity(p.frame).value).Some? ==> r.tables == c
  {
    hide *;
    var r := CommitTerminalReplay(codec, c, p, session, policy);
    RememberedTerminal(codec, c, p, session, policy);
    if FindTombstone(c.tombs, codec.identity(p.frame).value).None? && r.Resolved? {
      var mid := TerminalShape(codec, c, p, session, policy);
      var resolution := if policy.SaveNone? then DiscardedByPolicy else RawArchived;
      DiscardIdentities(c.tombs, session);
      TombstoneIdentity(codec, p, resolution, session);
      PruneIdentities(c.tombs, if policy.SaveLast? then DiscardSession(c.tombs, session) else c.tombs,
                      TombstoneFor(codec, p, resolution, session));
      FinalizeIdentities(codec, mid, session, c.sessions[session], policy);
      Through(c.tombs, mid.tombs, r.tables.tombs, r.receipt.identity);
    }
  }

  lemma RememberedTerminal(codec: Codec, c: Tables, p: Parcel, session: SessionId, policy: SavePolicy)
    requires session in c.sessions && codec.identity(p.frame).Some?
    ensures var r := CommitTerminalReplay(codec, c, p, session, policy);
            r.Resolved? && FindTombstone(c.tombs, codec.identity(p.frame).value).Some? ==>
              r.tables == c && r.receipt == ReceiptFor(codec, p) && forall id :: OnlyAdds(c.tombs, c.tombs, id)
  {
    hide FinalizeSession, FindTombstone, Archive, WithoutSession, DiscardSession, Prune, CountOne;
    if FindTombstone(c.tombs, codec.identity(p.frame).value).Some? {
      forall id ensures OnlyAdds(c.tombs, c.tombs, id) {
      }
    }
  }

  lemma ReplayIdentities(codec: Codec, c: Tables, p: Parcel)
    requires codec.identity(p.frame).Some?
    ensures var r := CommitReplayed(codec, c, p);
            r.Resolved? ==>
              r.receipt == ReceiptFor(codec, p) && OnlyAdds(c.tombs, r.tables.tombs, r.receipt.identity)
    ensures var r := CommitReplayed(codec, c, p);
            r.Resolved? && FindTombstone(c.tombs, codec.identity(p.frame).value).Some? ==> r.tables == c
  {
    hide CommitTerminalReplay, CommitDelivery, FindTombstone;
    var id := codec.identity(p.frame).value;
    if (id.device, id.boot) in c.contexts {
      var context := c.contexts[(id.device, id.boot)];
      if context.session in c.sessions {
        TerminalIdentities(codec, c, p, context.session, context.policy);
      }
      CommitIdentities(codec, c, p, context.policy, context.session);
    }
  }

  // ---------------------------------------------------------------- each step keeps the invariant

  lemma CommitKeeps(w: World, s: System, outcome: Outcome, session: SessionId)
    requires Inv(w, s) && s.client.Accepted?
    requires outcome.Resolved? ==>
      outcome.receipt == ReceiptFor(w.codec, s.client.parcel) &&
      OnlyAdds(s.core.tombs, outcome.tables.tombs, outcome.receipt.identity) &&
      (FindTombstone(s.core.tombs, outcome.receipt.identity).Some? ==> outcome.tables == s.core)
    ensures Inv(w, AfterCommit(w, s, outcome, session))
  {
    hide WellFormed, FindTombstone;
    var t := AfterCommit(w, s, outcome, session);
    if outcome.Resolved? {
      var id := outcome.receipt.identity;
      var found := FindTombstone(s.core.tombs, id);
      assert Logged(t.log, id) by {
        if found.Some? {
          TombstoneLogged(w, s, id);
        } else {
          assert Entry(id, session, s.client.parcel.frame) in t.log;
        }
      }
      LogGrows(s.log, t.log);
      forall x | x in t.core.tombs ensures Logged(t.log, x.identity) {
        if x.identity != id {
          var u :| u in s.core.tombs && u.identity == x.identity;
        }
      }
    }
  }

  lemma TombstoneLogged(w: World, s: System, id: Identity)
    requires NothingLost(w, s) && FindTombstone(s.core.tombs, id).Some?
    ensures Logged(s.log, id)
  {
  }

  lemma LogGrows(before: Log, after: Log)
    requires before <= after
    ensures forall id :: Logged(before, id) ==> Logged(after, id)
  {
    forall id | Logged(before, id) ensures Logged(after, id) {
      var e :| e in before && e.identity == id;
      assert e in after;
    }
  }

  lemma CoreStepKeeps(w: World, s: System, a: Action)
    requires Inv(w, s) && Next(w, s, a).Some?
    requires a.CommitLive? || a.CommitReplay? || a.EndSession? || a.SaveSession? || a.SetContexts?
    ensures Inv(w, Next(w, s, a).value)
  {
    hide WellFormed, CommitDelivery, CommitReplayed, FinalizeSession, FindTombstone, RowFits, Deliverable;
    match a
    case CommitLive(session) =>
      CommitIdentities(w.codec, s.core, s.client.parcel, w.plan(session), session);
      CommitKeeps(w, s, CommitDelivery(w.codec, s.core, s.client.parcel, w.plan(session), session), session);
    case CommitReplay =>
      ReplayIdentities(w.codec, s.core, s.client.parcel);
      var id := w.codec.identity(s.client.parcel.frame).value;
      var key := (id.device, id.boot);
      var session := if key in s.core.contexts then s.core.contexts[key].session else "";
      CommitKeeps(w, s, CommitReplayed(w.codec, s.core, s.client.parcel), session);
    case EndSession(session, payload) =>
      FinalizeIdentities(w.codec, s.core, session, payload, payload.policy);
    case SaveSession(_, _) =>
    case SetContexts(_) =>
  }

  /** The receipt at the head of the stream names this row's record, identity and checksum, the
      bridge takes it, and that capture has been resolved. */
  ghost predicate Acknowledges(w: World, s: System, a: Action, p: Pending) {
    a.ReaderReceives? && s.toBridge != [] && s.toBridge[0].CommitRequest? &&
    s.toBridge[0].receipt.record == p.record && s.toBridge[0].receipt.identity == p.identity &&
    s.toBridge[0].receipt.crc == w.codec.crc(p.frame) && Logged(s.log, p.identity)
  }

  lemma ReceiptRemoves(w: World, s: System, p: Pending)
    requires Inv(w, s) && ReaderReceive(w, s).Some?
    requires p in s.spool.pending && p !in ReaderReceive(w, s).value.spool.pending
    ensures Acknowledges(w, s, ReaderReceives, p)
  {
    var receipt := s.toBridge[0].receipt;
    assert s.toBridge[0] in s.toBridge;
    var k := MarkRemoves(w.codec, s.spool, receipt, w.limit);
    WithoutOne(s.spool.pending, k);
  }

  lemma CaptureRemovesNothing(w: World, s: System, frame: seq<byte>, source: Source, sequence: nat)
    requires NothingLost(w, s) && SerialCapture(w, s, frame, source, sequence).Some?
    ensures s.spool.pending <= SerialCapture(w, s, frame, source, sequence).value.spool.pending
  {
    hide NothingLost, Store;
    if Store(w.codec, s.spool, frame, source).Stored? {
      CaptureStored(w, s, frame, source);
    }
  }

  /** Whatever the action, a frame that leaves the spool was acknowledged by such a receipt. */
  lemma OnlyReceiptsRemove(w: World, s: System, a: Action, p: Pending)
    requires Inv(w, s) && Next(w, s, a).Some?
    requires p in s.spool.pending && p !in Next(w, s, a).value.spool.pending
    ensures Acknowledges(w, s, a, p)
  {
    hide NothingLost, FlightKnown, SerialCapture, ReaderReceive, Acknowledges, FinalizeSession, CommitDelivery,
      CommitReplayed, Deliverable, FindTombstone;
    if a.ReaderReceives? {
      ReceiptRemoves(w, s, p);
    } else if a.DeviceCaptures? {
      CaptureRemovesNothing(w, s, a.frame, a.source, a.sequence);
    }
  }

  lemma MarkStepKeeps(w: World, s: System)
    requires Inv(w, s) && ReaderReceive(w, s).Some?
    ensures Inv(w, ReaderReceive(w, s).value)
  {
    hide WellFormed, RowsKnown, RowFits;
    var t := ReaderReceive(w, s).value;
    assert s.toBridge[0] in s.toBridge;
    assert ToBridgeKnown(t.log, t.toBridge) by {
      assert forall m :: m in t.toBridge ==> m in s.toBridge;
    }
    if s.toBridge[0].CommitRequest? && t.bridge.BridgeOn? {
      var receipt := s.toBridge[0].receipt;
      MarkKeeps(w.codec, s.spool, receipt, w.limit);
      if Mark(s.spool, receipt, w.limit).disposition.Deleted? {
        MarkLosesNothing(w, s, t, receipt);
      } else {
        MarkSame(w, s, receipt);
      }
    }
  }

  lemma MarkSame(w: World, s: System, receipt: Receipt)
    requires Mark(s.spool, receipt, w.limit).MarkedAs?
    requires Mark(s.spool, receipt, w.limit).disposition.AlreadyCommitted?
    ensures Mark(s.spool, receipt, w.limit).rows == s.spool
  {
  }

  lemma MarkLosesNothing(w: World, s: System, t: System, receipt: Receipt)
    requires NothingLost(w, s) && Logged(s.log, receipt.identity)
    requires Mark(s.spool, receipt, w.limit).MarkedAs? && Mark(s.spool, receipt, w.limit).disposition.Deleted?
    requires t == s.(spool := Mark(s.spool, receipt, w.limit).rows, bridge := t.bridge, toBridge := t.toBridge)
    ensures NothingLost(w, t)
  {
    hide *;
    MarkSafe(w, s, receipt);
    SpoolReplaced(w, s, t);
  }

  /** The spool's part of what is known. */
  ghost predicate SpoolSafe(w: World, s: System, rows: Rows) {
    WellFormed(w.codec, rows) && RowsKnown(w.codec, s.stored, rows.pending) &&
    (forall r :: r in rows.markers ==> rows.markers[r].identity in s.stored) &&
    (forall id :: id in s.stored ==> PendingOrLogged(rows.pending, s.log, id))
  }

  lemma SpoolReplaced(w: World, s: System, t: System)
    requires NothingLost(w, s) && SpoolSafe(w, s, t.spool)
    requires t == s.(spool := t.spool, bridge := t.bridge, toBridge := t.toBridge)
    ensures NothingLost(w, t)
  {
    hide WellFormed, RowsKnown, PendingOrLogged, Logged;
  }

  lemma MarkSafe(w: World, s: System, receipt: Receipt)
    requires NothingLost(w, s) && Logged(s.log, receipt.identity)
    requires Mark(s.spool, receipt, w.limit).MarkedAs? && Mark(s.spool, receipt, w.limit).disposition.Deleted?
    ensures SpoolSafe(w, s, Mark(s.spool, receipt, w.limit).rows)
  {
    MarkKeeps(w.codec, s.spool, receipt, w.limit);
    var k := MarkRemoves(w.codec, s.spool, receipt, w.limit);
    SpoolOrdered(w.codec, s.spool);
    hide WellFormed, Mark, RowKnown, Ordered, PendingOrLogged, Logged;
    var rows := Mark(s.spool, receipt, w.limit).rows;
    forall p | p in rows.pending ensures RowKnown(w.codec, s.stored, p) {
      assert p in s.spool.pending;
    }
    forall r | r in rows.markers ensures rows.markers[r].identity in s.stored {
      MarkedMarkers(w, s, receipt, k, r);
    }
    forall id | id in s.stored ensures PendingOrLogged(rows.pending, s.log, id) {
      OthersStay(s.spool.pending, s.log, k, id);
    }
  }

  lemma SpoolOrdered(codec: Codec, s: Rows)
    requires WellFormed(codec, s)
    ensures Ordered(s.pending)
  {
  }

  lemma MarkedMarkers(w: World, s: System, receipt: Receipt, k: nat, r: nat)
    requires NothingLost(w, s) && k < |s.spool.pending| && s.spool.pending[k].identity == receipt.identity
    requires Mark(s.spool, receipt, w.limit).MarkedAs? && r in Mark(s.spool, receipt, w.limit).rows.markers
    ensures Mark(s.spool, receipt, w.limit).rows.markers[r].identity in s.stored
  {
    MarkMarkers(s.spool, receipt, w.limit, r);
    assert s.spool.pending[k] in s.spool.pending;
    assert RowKnown(w.codec, s.stored, s.spool.pending[k]);
    hide WellFormed, Mark;
  }

  /** Without row k a capture is still pending, or it was that row's and is resolved. */
  lemma OthersStay(pending: seq<Pending>, log: Log, k: nat, id: Identity)
    requires k < |pending| && Logged(log, pending[k].identity) && PendingOrLogged(pending, log, id)
    ensures PendingOrLogged(pending[..k] + pending[k + 1..], log, id)
  {
    if !Logged(log, id) {
      var p :| p in pending && p.identity == id;
      var i :| 0 <= i < |pending| && pending[i] == p;
      assert p in pending[..k] + pending[k + 1..] by {
        assert p == (if i < k then pending[..k][i] else pending[k + 1..][i - k - 1]);
      }
    }
  }

  /** More frames stored, nothing else changed: what was known stays known. */
  lemma StoredGrows(w: World, s: System, stored: Stored)
    requires forall id :: id in s.stored ==> id in stored && stored[id] == s.stored[id]
    requires FlightKnown(w, s)
    ensures FlightKnown(w, s.(stored := stored))
  {
    hide Deliverable, RowFits;
  }

  lemma CaptureStored(w: World, s: System, frame: seq<byte>, source: Source)
    requires NothingLost(w, s) && DeviceMaySend(w, s, frame)
    requires Store(w.codec, s.spool, frame, source).Stored?
    ensures var r := Store(w.codec, s.spool, frame, source);
            WellFormed(w.codec, r.rows) && r.rows.markers == s.spool.markers &&
            s.spool.pending <= r.rows.pending && r.row in r.rows.pending &&
            (forall p :: p in r.rows.pending ==> p == r.row || p in s.spool.pending) &&
            RowFits(w.codec, r.row) && r.row.frame == frame &&
            (r.row.identity in s.stored ==> s.stored[r.row.identity] == frame)
  {
    var r := Store(w.codec, s.spool, frame, source);
    var id := w.codec.identity(frame).value;
    assert NotCommitted(s.spool, id);
    StoreKeeps(w.codec, s.spool, frame, source);
    hide Store;
    if id in s.stored {
      var p :| p in s.spool.pending && p.identity == id;
      SamePending(r.rows.pending, p, r.row);
      assert RowKnown(w.codec, s.stored, p);
    }
  }

  lemma CaptureLosesNothing(w: World, s: System, frame: seq<byte>, source: Source, t: System)
    requires NothingLost(w, s) && DeviceMaySend(w, s, frame)
    requires Store(w.codec, s.spool, frame, source).Stored?
    requires var r := Store(w.codec, s.spool, frame, source);
             t.spool == r.rows && t.stored == s.stored[r.row.identity := r.row.frame] &&
             t.log == s.log && t.core == s.core
    ensures NothingLost(w, t)
    ensures RowKnown(w.codec, t.stored, Store(w.codec, s.spool, frame, source).row)
    ensures forall id :: id in s.stored ==> id in t.stored && t.stored[id] == s.stored[id]
  {
    hide Store, RowFits, WellFormed;
    CaptureStored(w, s, frame, source);
    var r := Store(w.codec, s.spool, frame, source);
    forall x | x in t.stored ensures PendingOrLogged(t.spool.pending, t.log, x) {
      if x != r.row.identity {
        assert PendingOrLogged(s.spool.pending, s.log, x);
      }
    }
  }

  lemma SamePending(pending: seq<Pending>, p: Pending, q: Pending)
    requires Ordered(pending) && p in pending && q in pending && p.identity == q.identity
    ensures p == q
  {
    var i :| 0 <= i < |pending| && pending[i] == p;
    OthersDiffer(pending, i, q);
  }

  lemma CaptureStepKeeps(w: World, s: System, frame: seq<byte>, source: Source, sequence: nat)
    requires Inv(w, s) && SerialCapture(w, s, frame, source, sequence).Some?
    ensures Inv(w, SerialCapture(w, s, frame, source, sequence).value)
  {
    hide NothingLost, Store;
    var t := SerialCapture(w, s, frame, source, sequence).value;
    if Store(w.codec, s.spool, frame, source).Stored? {
      CaptureLosesNothing(w, s, frame, source, t);
      StoredGrows(w, s, t.stored);
    } else {
      LostFrame(w, s, t);
    }
  }

  lemma LostFrame(w: World, s: System, t: System)
    requires NothingLost(w, s)
    requires t.spool == s.spool && t.stored == s.stored && t.log == s.log && t.core == s.core
    ensures NothingLost(w, t)
  {
  }

  lemma SendStepKeeps(w: World, s: System)
    requires Inv(w, s) && SerialSend(w, s).Some?
    ensures Inv(w, SerialSend(w, s).value)
  {
    LostFrame(w, s, SerialSend(w, s).value);
    hide NothingLost, Logged;
  }

  lemma ReplayStepKeeps(w: World, s: System, a: Action)
    requires Inv(w, s) && (a.QuerySpool? || a.NextReplay?) && Next(w, s, a).Some?
    ensures Inv(w, Next(w, s, a).value)
  {
    hide WellFormed, RowKnown, Logged;
    var t := Next(w, s, a).value;
    LostFrame(w, s, t);
    assert RowsKnown(w.codec, s.stored, s.spool.pending);
    hide NothingLost;
    if a.NextReplay? {
      var rest := s.bridge.serial.rest;
      assert rest != [] ==> rest[0] in rest && forall p :: p in rest[1..] ==> p in rest;
    } else {
      assert |s.spool.pending| >= REPLAY_BATCH ==>
          forall p :: p in s.spool.pending[..REPLAY_BATCH] ==> p in s.spool.pending;
    }
  }

  lemma ClientStepKeeps(w: World, s: System, a: Action)
    requires Inv(w, s) && (a.ClientReceives? || a.ClientConfirms? || a.ClientSends?) && Next(w, s, a).Some?
    ensures Inv(w, Next(w, s, a).value)
  {
    hide RowKnown, Logged, Known, SerialKnown;
    var t := Next(w, s, a).value;
    LostFrame(w, s, t);
    hide NothingLost;
    if a.ClientReceives? {
      assert s.toCore[0] in s.toCore && forall m :: m in s.toCore[1..] ==> m in s.toCore;
    }
  }

  /** The steps that move messages and threads along touch none of the durable state. */
  lemma TransportStepKeeps(w: World, s: System, a: Action)
    requires Inv(w, s) && Next(w, s, a).Some?
    requires a.Connect? || a.BridgeDrops? || a.ClientDrops? || a.DeviceReplies? || a.ResumeSerial? ||
             a.EnableForwarding? || a.FlushOne? || a.ReaderResponds? || a.ReaderSignals? || a.ReaderWrites?
    ensures Inv(w, Next(w, s, a).value)
  {
    hide WellFormed, RowKnown, Known, Logged;
    var t := Next(w, s, a).value;
    LostFrame(w, s, t);
    hide NothingLost;
  }

  lemma StepKeeps(w: World, s: System, a: Action)
    requires Inv(w, s) && Next(w, s, a).Some?
    ensures Inv(w, Next(w, s, a).value)
  {
    hide Inv;
    if a.DeviceCaptures? {
      CaptureStepKeeps(w, s, a.frame, a.source, a.sequence);
    } else if a.ReaderReceives? {
      MarkStepKeeps(w, s);
    } else if a.CommitLive? || a.CommitReplay? || a.EndSession? || a.SaveSession? || a.SetContexts? {
      CoreStepKeeps(w, s, a);
    } else if a.SendDelivery? {
      SendStepKeeps(w, s);
    } else if a.QuerySpool? || a.NextReplay? {
      ReplayStepKeeps(w, s, a);
    } else if a.ClientReceives? || a.ClientConfirms? || a.ClientSends? {
      ClientStepKeeps(w, s, a);
    } else {
      TransportStepKeeps(w, s, a);
    }
  }
}
