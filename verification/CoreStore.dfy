/** The core's durable tables and the transactions that resolve a delivered capture.

    Every transaction is a function from tables to tables (or to a rolled-back error), and
    the class CaptureStore performs it statement by statement on its own tables. */
module CoreStore {
  import opened Bytes
  import opened Delivery

  type SessionId = string

  datatype SavePolicy = SaveAll | SaveNone | SaveLast
  datatype Resolution = RawArchived | RollingLatest | DiscardedByPolicy

  /** A row of capture_resolution_tombstones. */
  datatype Tombstone = Tombstone(
    identity: Identity, crc: u32, sha: Hash32, resolution: Resolution, session: SessionId)

  /** A row of captures. */
  datatype ArchiveRow = ArchiveRow(identity: Identity, session: SessionId, frame: seq<byte>)

  /** A row of session_delivery_stats. */
  datatype Stats = Stats(acquired: nat, last: Id16)

  datatype SessionState = Running | Stopping | Ended(reason: string)

  /** The accounting part of a session summary. */
  datatype Summary = Summary(
    state: SessionState, policy: SavePolicy,
    acquired: nat, saved: nat, discarded: nat,
    lastCapture: Option<Id16>, lastSaved: Option<Id16>)

  /** A row of delivery_policy_contexts. */
  datatype Context = Context(session: SessionId, policy: SavePolicy)

  /** All tables; the two sequences are in row_id order. */
  datatype Tables = Tables(
    tombs: seq<Tombstone>,
    archive: seq<ArchiveRow>,
    latest: map<SessionId, Parcel>,
    stats: map<SessionId, Stats>,
    sessions: map<SessionId, Summary>,
    contexts: map<(Id16, Id16), Context>)

  datatype Error = InvalidRequest | StorageConflict | NoPolicyContext

  datatype Outcome =
    | Resolved(tables: Tables, receipt: Receipt, inserted: bool, resolution: Resolution)
    | Refused(error: Error)

  const TOMBSTONE_LIMIT := 4096

  // ---------------------------------------------------------------- statements

  function FindTombstone(tombs: seq<Tombstone>, identity: Identity): (r: Option<Tombstone>)
    ensures r.Some? ==> r.value in tombs && r.value.identity == identity
    ensures r.None? ==> forall t :: t in tombs ==> t.identity != identity
  {
    if tombs == [] then None
    else
      var last := tombs[|tombs| - 1];
      if last.identity == identity then Some(last)
      else FindTombstone(tombs[..|tombs| - 1], identity)
  }

  function FindArchived(archive: seq<ArchiveRow>, identity: Identity): (r: Option<ArchiveRow>)
    ensures r.Some? ==> r.value in archive && r.value.identity == identity
    ensures r.None? ==> forall a :: a in archive ==> a.identity != identity
  {
    if archive == [] then None
    else
      var last := archive[|archive| - 1];
      if last.identity == identity then Some(last)
      else FindArchived(archive[..|archive| - 1], identity)
  }

  /** DELETE ... WHERE row_id NOT IN (the 4096 newest). */
  function Prune(tombs: seq<Tombstone>): seq<Tombstone> {
    if |tombs| > TOMBSTONE_LIMIT then tombs[|tombs| - TOMBSTONE_LIMIT..] else tombs
  }

  function RowsOf(archive: seq<ArchiveRow>, session: SessionId): seq<ArchiveRow> {
    if archive == [] then []
    else
      var last := archive[|archive| - 1];
      RowsOf(archive[..|archive| - 1], session) + (if last.session == session then [last] else [])
  }

  /** DELETE FROM captures WHERE session_id=? */
  function WithoutSession(archive: seq<ArchiveRow>, session: SessionId): seq<ArchiveRow> {
    if archive == [] then []
    else
      var last := archive[|archive| - 1];
      WithoutSession(archive[..|archive| - 1], session) + (if last.session == session then [] else [last])
  }

  function TombstonesOf(tombs: seq<Tombstone>, session: SessionId): seq<Tombstone> {
    if tombs == [] then []
    else
      var last := tombs[|tombs| - 1];
      TombstonesOf(tombs[..|tombs| - 1], session) + (if last.session == session then [last] else [])
  }

  /** UPDATE ... SET resolution='DISCARDED_BY_POLICY' WHERE session_id=? */
  function DiscardSession(tombs: seq<Tombstone>, session: SessionId): seq<Tombstone> {
    seq(|tombs|, i requires 0 <= i < |tombs| =>
      if tombs[i].session == session then tombs[i].(resolution := DiscardedByPolicy) else tombs[i])
  }

  /** UPDATE ... SET resolution='RAW_ARCHIVED' WHERE device_id, boot_id, capture_id */
  function MarkArchived(tombs: seq<Tombstone>, identity: Identity): seq<Tombstone> {
    seq(|tombs|, i requires 0 <= i < |tombs| =>
      if tombs[i].identity == identity then tombs[i].(resolution := RawArchived) else tombs[i])
  }

  /** _archive_delivery: None is the storage conflict. */
  function Archive(archive: seq<ArchiveRow>, row: ArchiveRow): Option<seq<ArchiveRow>> {
    match FindArchived(archive, row.identity)
    case None => Some(archive + [row])
    case Some(kept) => if kept.frame == row.frame then Some(archive) else None
  }

  function CountOne(stats: map<SessionId, Stats>, session: SessionId, capture: Id16): map<SessionId, Stats> {
    if session in stats then stats[session := Stats(stats[session].acquired + 1, capture)]
    else stats[session := Stats(1, capture)]
  }

  predicate Open(c: Tables, session: SessionId) {
    session in c.sessions ==> !c.sessions[session].state.Ended?
  }

  // ---------------------------------------------------------------- transactions

  /** commit_delivery, for a caller that names a session. */
  function CommitDelivery(
    codec: Codec, c: Tables, p: Parcel, policy: SavePolicy, session: SessionId): Outcome
  {
    if session == "" || !Deliverable(codec, p) then Refused(InvalidRequest)
    else
      var receipt := ReceiptFor(codec, p);
      match FindTombstone(c.tombs, receipt.identity)
      case Some(t) => Remembered(codec, c, p, t)
      case None =>
        var row := ArchiveRow(receipt.identity, session, p.frame);
        var archive := if policy.SaveAll? then Archive(c.archive, row) else Some(c.archive);
        if archive.None? then Refused(StorageConflict)
        else
          var resolution := PolicyResolution(policy);
          Resolved(
            c.(archive := archive.value,
               latest := if policy.SaveLast? then c.latest[session := p] else c.latest,
               tombs := Prune(c.tombs + [TombstoneFor(codec, p, resolution, session)]),
               stats := CountOne(c.stats, session, receipt.identity.capture)),
            receipt,
            policy.SaveAll? ==> |archive.value| > |c.archive|,
            resolution)
  }

  function PolicyResolution(policy: SavePolicy): Resolution {
    match policy
    case SaveAll => RawArchived
    case SaveLast => RollingLatest
    case SaveNone => DiscardedByPolicy
  }

  function TombstoneFor(codec: Codec, p: Parcel, resolution: Resolution, session: SessionId): Tombstone
    requires codec.identity(p.frame).Some?
  {
    Tombstone(codec.identity(p.frame).value, codec.crc(p.frame), codec.sha(p.frame), resolution, session)
  }

  /** The identity was resolved before: repeat that decision, or refuse other bytes. */
  function Remembered(codec: Codec, c: Tables, p: Parcel, t: Tombstone): Outcome
    requires codec.identity(p.frame).Some?
  {
    if t.crc != codec.crc(p.frame) || t.sha != codec.sha(p.frame) then Refused(StorageConflict)
    else Resolved(c, ReceiptFor(codec, p), false, t.resolution)
  }

  /** _commit_terminal_replay: a late frame of a session that has already ended. */
  function CommitTerminalReplay(
    codec: Codec, c: Tables, p: Parcel, session: SessionId, policy: SavePolicy): Outcome
    requires session in c.sessions && codec.identity(p.frame).Some?
  {
    var receipt := ReceiptFor(codec, p);
    match FindTombstone(c.tombs, receipt.identity)
    case Some(t) => Remembered(codec, c, p, t)
    case None =>
      var kept := if policy.SaveLast? then WithoutSession(c.archive, session) else c.archive;
      var tombs := if policy.SaveLast? then DiscardSession(c.tombs, session) else c.tombs;
      var row := ArchiveRow(receipt.identity, session, p.frame);
      var archive := if policy.SaveNone? then Some(kept) else Archive(kept, row);
      if archive.None? then Refused(StorageConflict)
      else
        var resolution := if policy.SaveNone? then DiscardedByPolicy else RawArchived;
        var after := c.(
          archive := archive.value,
          tombs := Prune(tombs + [TombstoneFor(codec, p, resolution, session)]),
          stats := CountOne(c.stats, session, receipt.identity.capture));
        match FinalizeSession(codec, after, session, c.sessions[session], policy)
        case None => Refused(StorageConflict)
        case Some(done) => Resolved(done, receipt, true, resolution)
  }

  /** commit_replayed_delivery: the policy comes from the context of the frame's boot. */
  function CommitReplayed(codec: Codec, c: Tables, p: Parcel): Outcome {
    if !Deliverable(codec, p) then Refused(InvalidRequest)
    else
      var identity := codec.identity(p.frame).value;
      match FindTombstone(c.tombs, identity)
      case Some(t) => Remembered(codec, c, p, t)
      case None =>
        if (identity.device, identity.boot) !in c.contexts then Refused(NoPolicyContext)
        else
          var context := c.contexts[(identity.device, identity.boot)];
          if context.session in c.sessions && !Open(c, context.session) then
            CommitTerminalReplay(codec, c, p, context.session, context.policy)
          else CommitDelivery(codec, c, p, context.policy, context.session)
  }

  /** _finalize_latest_capture_in_connection: move the rolling frame into the archive. */
  function FinalizeLatest(codec: Codec, c: Tables, session: SessionId): Option<Tables> {
    if session !in c.latest then Some(c)
    else
      var frame := c.latest[session].frame;
      match codec.identity(frame)
      case None => None
      case Some(identity) =>
        match Archive(c.archive, ArchiveRow(identity, session, frame))
        case None => None
        case Some(archive) =>
          Some(c.(archive := archive, latest := c.latest - {session}, tombs := MarkArchived(c.tombs, identity)))
  }

  /** _finalize_session_summary_in_connection: recount from the tables and store the result over
      the counters of the payload, which keeps its own state and save policy. */
  function FinalizeSession(
    codec: Codec, c: Tables, session: SessionId, payload: Summary, policy: SavePolicy): Option<Tables>
  {
    var mine := TombstonesOf(c.tombs, session);
    var acquired := if session in c.stats then c.stats[session].acquired else |mine|;
    var last :=
      if session in c.stats then Some(c.stats[session].last)
      else if mine != [] then Some(mine[|mine| - 1].identity.capture)
      else payload.lastCapture;
    var frozen := if policy.SaveLast? then FinalizeLatest(codec, c, session) else Some(c);
    match frozen
    case None => None
    case Some(d) =>
      var rows := RowsOf(d.archive, session);
      var summary := payload.(
        acquired := acquired, saved := |rows|, discarded := if acquired >= |rows| then acquired - |rows| else 0,
        lastCapture := last, lastSaved := if rows == [] then None else Some(rows[|rows| - 1].identity.capture));
      Some(d.(sessions := d.sessions[session := summary]))
  }
}
