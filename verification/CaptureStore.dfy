/** The archive store as an object: its tables are fields, each public operation is one
    transaction that changes them statement by statement, and an error rolls it back. */
module CaptureStoreObject {
  import opened Bytes
  import opened Delivery
  import opened CoreStore
  import opened Accounting

  class CaptureStore {
    const codec: Codec
    var tombs: seq<Tombstone>
    var archive: seq<ArchiveRow>
    var latest: map<SessionId, Parcel>
    var stats: map<SessionId, Stats>
    var sessions: map<SessionId, Summary>
    var contexts: map<(Id16, Id16), Context>

    function State(): Tables
      reads this
    {
      Tables(tombs, archive, latest, stats, sessions, contexts)
    }

    constructor (codec: Codec)
      ensures this.codec == codec && State() == EMPTY
    {
      this.codec := codec;
      tombs, archive, latest, stats, sessions, contexts := [], [], map[], map[], map[], map[];
    }

    method Rollback(before: Tables)
      modifies this
      ensures State() == before
    {
      tombs, archive, latest := before.tombs, before.archive, before.latest;
      stats, sessions, contexts := before.stats, before.sessions, before.contexts;
    }

    /** _archive_delivery: true when a row was inserted, None on the storage conflict. */
    method ArchiveDelivery(p: Parcel, session: SessionId) returns (inserted: Option<bool>)
      requires codec.identity(p.frame).Some?
      modifies this`archive
      ensures var row := ArchiveRow(codec.identity(p.frame).value, session, p.frame);
              match Archive(old(archive), row)
              case None => inserted == None && archive == old(archive)
              case Some(rows) => inserted == Some(|rows| > |old(archive)|) && archive == rows
    {
      var row := ArchiveRow(codec.identity(p.frame).value, session, p.frame);
      var existing := FindArchived(archive, row.identity);
      if existing.Some? {
        return if existing.value.frame == row.frame then Some(false) else None;
      }
      archive := archive + [row];
      return Some(true);
    }

    method PruneResolutions()
      modifies this`tombs
      ensures tombs == Prune(old(tombs))
    {
      if |tombs| > TOMBSTONE_LIMIT {
        tombs := tombs[|tombs| - TOMBSTONE_LIMIT..];
      }
    }

    /** The two INSERTs and the pruning that record one more resolved capture. */
    method RecordDecision(p: Parcel, resolution: Resolution, session: SessionId)
      requires codec.identity(p.frame).Some?
      modifies this`tombs, this`stats
      ensures tombs == Prune(old(tombs) + [TombstoneFor(codec, p, resolution, session)])
      ensures stats == CountOne(old(stats), session, codec.identity(p.frame).value.capture)
    {
      var capture := codec.identity(p.frame).value.capture;
      tombs := tombs + [TombstoneFor(codec, p, resolution, session)];
      if session in stats {
        stats := stats[session := Stats(stats[session].acquired + 1, capture)];
      } else {
        stats := stats[session := Stats(1, capture)];
      }
      PruneResolutions();
    }

    method CommitDelivery(p: Parcel, policy: SavePolicy, session: SessionId) returns (outcome: Outcome)
      modifies this
      ensures outcome == CoreStore.CommitDelivery(codec, old(State()), p, policy, session)
      ensures State() == if outcome.Resolved? then outcome.tables else old(State())
    {
      if session == "" || !Deliverable(codec, p) {
        return Refused(InvalidRequest);
      }
      var receipt := ReceiptFor(codec, p);
      var existing := FindTombstone(tombs, receipt.identity);
      if existing.Some? {
        return Remembered(codec, State(), p, existing.value);
      }
      var inserted, resolution := true, DiscardedByPolicy;
      if policy.SaveAll? {
        var archived := ArchiveDelivery(p, session);
        if archived.None? {
          return Refused(StorageConflict);
        }
        inserted, resolution := archived.value, RawArchived;
      } else if policy.SaveLast? {
        latest := latest[session := p];
        resolution := RollingLatest;
      }
      RecordDecision(p, resolution, session);
      return Resolved(State(), receipt, inserted, resolution);
    }

    /** False when the rolling frame could not be archived; the caller rolls back. */
    method FinalizeLatestCapture(session: SessionId) returns (done: bool)
      modifies this`archive, this`latest, this`tombs
      ensures done == FinalizeLatest(codec, old(State()), session).Some?
      ensures done ==> State() == FinalizeLatest(codec, old(State()), session).value
    {
      if session !in latest {
        return true;
      }
      var p := latest[session];
      var identity := codec.identity(p.frame);
      if identity.None? {
        return false;
      }
      var archived := ArchiveDelivery(p, session);
      if archived.None? {
        return false;
      }
      latest := latest - {session};
      tombs := MarkArchived(tombs, identity.value);
      return true;
    }

    method FinalizeSummary(session: SessionId, payload: Summary, policy: SavePolicy) returns (done: bool)
      modifies this
      ensures done == FinalizeSession(codec, old(State()), session, payload, policy).Some?
      ensures done ==> State() == FinalizeSession(codec, old(State()), session, payload, policy).value
      ensures !done ==> State() == old(State())
    {
      hide TombstonesOf, RowsOf, FinalizeLatest;
      var before := State();
      var mine := TombstonesOf(tombs, session);
      var acquired, last := |mine|, payload.lastCapture;
      if session in stats {
        acquired, last := stats[session].acquired, Some(stats[session].last);
      } else if mine != [] {
        last := Some(mine[|mine| - 1].identity.capture);
      }
      if policy.SaveLast? {
        var frozen := FinalizeLatestCapture(session);
        if !frozen {
          Rollback(before);
          return false;
        }
      }
      var rows := RowsOf(archive, session);
      var saved := |rows|;
      var lastSaved := if rows == [] then None else Some(rows[|rows| - 1].identity.capture);
      var discarded := if acquired >= saved then acquired - saved else 0;
      sessions := sessions[session := payload.(
        acquired := acquired, saved := saved, discarded := discarded, lastCapture := last, lastSaved := lastSaved)];
      return true;
    }

    method CommitTerminalReplay(p: Parcel, session: SessionId, policy: SavePolicy) returns (outcome: Outcome)
      requires session in sessions && codec.identity(p.frame).Some?
      modifies this
      ensures outcome == CoreStore.CommitTerminalReplay(codec, old(State()), p, session, policy)
      ensures State() == if outcome.Resolved? then outcome.tables else old(State())
    {
      hide FindTombstone, FinalizeSession, Archive, WithoutSession, DiscardSession, Prune, CountOne;
      var before := State();
      var receipt := ReceiptFor(codec, p);
      var existing := FindTombstone(tombs, receipt.identity);
      if existing.Some? {
        return Remembered(codec, before, p, existing.value);
      }
      if policy.SaveLast? {
        archive := WithoutSession(archive, session);
        tombs := DiscardSession(tombs, session);
      }
      var resolution := DiscardedByPolicy;
      if !policy.SaveNone? {
        var archived := ArchiveDelivery(p, session);
        if archived.None? {
          Rollback(before);
          return Refused(StorageConflict);
        }
        resolution := RawArchived;
      }
      RecordDecision(p, resolution, session);
      var done := FinalizeSummary(session, sessions[session], policy);
      if !done {
        Rollback(before);
        return Refused(StorageConflict);
      }
      return Resolved(State(), receipt, true, resolution);
    }

    method CommitReplayedDelivery(p: Parcel) returns (outcome: Outcome)
      modifies this
      ensures outcome == CommitReplayed(codec, old(State()), p)
      ensures State() == if outcome.Resolved? then outcome.tables else old(State())
    {
      if !Deliverable(codec, p) {
        return Refused(InvalidRequest);
      }
      var identity := codec.identity(p.frame).value;
      var existing := FindTombstone(tombs, identity);
      if existing.Some? {
        return Remembered(codec, State(), p, existing.value);
      }
      if (identity.device, identity.boot) !in contexts {
        return Refused(NoPolicyContext);
      }
      var context := contexts[(identity.device, identity.boot)];
      if context.session in sessions && sessions[context.session].state.Ended? {
        outcome := CommitTerminalReplay(p, context.session, context.policy);
      } else {
        outcome := CommitDelivery(p, context.policy, context.session);
      }
    }

    /** Close every session a crashed core left open. None when a finalisation raised, which
        cannot happen while the tables account for the log. */
    method ReconcileInterrupted(ghost plan: Plan, ghost log: Log) returns (closed: Option<nat>)
      modifies this
      ensures Reconcilable(codec, plan, log, old(State())) ==>
                Reconciled(codec, plan, log, old(State()), State()) &&
                closed == Some(|OpenSessions(old(sessions))|)
    {
      var rows := OpenSessions(sessions);
      var done: nat := 0;
      ghost var start := State();
      ghost var good := Reconcilable(codec, plan, log, start);
      while rows != {}
        invariant rows <= sessions.Keys
        invariant done + |rows| == |OpenSessions(start.sessions)|
        invariant good ==> Between(codec, plan, log, start, State(), rows)
        decreases |rows|
      {
        var session :| session in rows;
        ghost var before := State();
        var payload := Interrupted(sessions[session]);
        var ok := FinalizeSummary(session, payload, payload.policy);
        FinalizeKeepsOthers(codec, before, session, payload, payload.policy);
        if good {
          OneClosed(codec, plan, log, start, before, session, rows);
        }
        if !ok {
          return None;
        }
        rows := rows - {session};
        done := done + 1;
      }
      return Some(done);
    }
  }

  // ---------------------------------------------------------------- reconciliation

  /** The rows in state RUNNING or STOPPING. */
  function OpenSessions(sessions: map<SessionId, Summary>): set<SessionId> {
    set s | s in sessions && !sessions[s].state.Ended?
  }

  function Interrupted(summary: Summary): Summary {
    summary.(state := Ended("INTERRUPTED"))
  }

  /** The policies in the open summaries are those the sessions run under. */
  ghost predicate Reconcilable(codec: Codec, plan: Plan, log: Log, c: Tables) {
    Accounted(codec, plan, log, c) &&
    forall s :: s in OpenSessions(c.sessions) ==> SummaryPolicy(plan, s, c.sessions[s].policy)
  }

  /** Part way through: these sessions are still open, the other open ones were interrupted. */
  ghost predicate Progress(c: Tables, d: Tables, left: set<SessionId>) {
    left <= OpenSessions(c.sessions) &&
    d.stats == c.stats && d.contexts == c.contexts && |d.tombs| == |c.tombs| &&
    d.sessions.Keys == c.sessions.Keys &&
    forall s :: s in c.sessions ==>
      if s in OpenSessions(c.sessions) && s !in left
      then d.sessions[s].state == Ended("INTERRUPTED") && d.sessions[s].policy == c.sessions[s].policy
      else d.sessions[s] == c.sessions[s]
  }

  ghost predicate Between(codec: Codec, plan: Plan, log: Log, c: Tables, d: Tables, left: set<SessionId>) {
    Accounted(codec, plan, log, d) && Progress(c, d, left)
  }

  /** Everything is still accounted for, no session is open, those that had ended keep their
      summaries, and the counters, contexts and tombstones stay. */
  ghost predicate Reconciled(codec: Codec, plan: Plan, log: Log, c: Tables, d: Tables) {
    Between(codec, plan, log, c, d, {}) && OpenSessions(d.sessions) == {}
  }

  lemma FinalizeKeepsOthers(
    codec: Codec, c: Tables, s: SessionId, payload: Summary, policy: SavePolicy)
    ensures var r := FinalizeSession(codec, c, s, payload, policy);
            r.Some? ==>
              r.value.stats == c.stats && r.value.contexts == c.contexts && |r.value.tombs| == |c.tombs| &&
              s in r.value.sessions && r.value.sessions == c.sessions[s := r.value.sessions[s]] &&
              r.value.sessions[s].state == payload.state && r.value.sessions[s].policy == payload.policy
  {
    hide Archive, RowsOf, TombstonesOf;
  }

  lemma OneClosed(
    codec: Codec, plan: Plan, log: Log, c: Tables, d: Tables, s: SessionId, left: set<SessionId>)
    requires Reconcilable(codec, plan, log, c) && Between(codec, plan, log, c, d, left) && s in left
    ensures s in d.sessions
    ensures var r := FinalizeSession(codec, d, s, Interrupted(d.sessions[s]), d.sessions[s].policy);
            r.Some? && Between(codec, plan, log, c, r.value, left - {s})
  {
    FromAccounted(codec, plan, log, d, s);
    FinalizeAccounted(codec, plan, log, d, s, Interrupted(d.sessions[s]), d.sessions[s].policy);
    FinalizeKeepsOthers(codec, d, s, Interrupted(d.sessions[s]), d.sessions[s].policy);
    hide Accounted, AccountedExcept, FinalizeSession, SummaryPolicy;
    OneMoreClosed(c, d, FinalizeSession(codec, d, s, Interrupted(d.sessions[s]), d.sessions[s].policy).value, s, left);
  }

  lemma OneMoreClosed(c: Tables, d: Tables, e: Tables, s: SessionId, left: set<SessionId>)
    requires Progress(c, d, left) && s in left && s in d.sessions && s in e.sessions
    requires e.stats == d.stats && e.contexts == d.contexts && |e.tombs| == |d.tombs|
    requires e.sessions == d.sessions[s := e.sessions[s]]
    requires e.sessions[s].state == Ended("INTERRUPTED") && e.sessions[s].policy == d.sessions[s].policy
    ensures Progress(c, e, left - {s})
  {
  }

  lemma FromAccounted(codec: Codec, plan: Plan, log: Log, c: Tables, s: SessionId)
    requires Accounted(codec, plan, log, c)
    ensures AccountedExcept(codec, plan, log, c, s)
  {
    hide ArchiveMatches, LatestMatches, ResolutionsMatch, StatsMatch, TombstonesMatch, LogWellFormed;
  }
}
