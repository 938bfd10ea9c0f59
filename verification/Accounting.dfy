/** What the core's tables must say, told against a reference the tables do not contain:
    the log of every capture ever resolved, in the order of resolution. */
module Accounting {
  import opened Bytes
  import opened Delivery
  import opened CoreStore

  /** One resolved capture: counted in one session, with these bytes. */
  datatype Entry = Entry(identity: Identity, session: SessionId, frame: seq<byte>)

  type Log = seq<Entry>

  /** The save policy each session was started with. */
  type Plan = SessionId -> SavePolicy

  function EntriesOf(log: Log, session: SessionId): seq<Entry> {
    if log == [] then []
    else
      var last := log[|log| - 1];
      EntriesOf(log[..|log| - 1], session) + (if last.session == session then [last] else [])
  }

  function RowFor(e: Entry): ArchiveRow {
    ArchiveRow(e.identity, e.session, e.frame)
  }

  function RowsFor(entries: seq<Entry>): (rows: seq<ArchiveRow>)
    ensures |rows| == |entries|
  {
    seq(|entries|, i requires 0 <= i < |entries| => RowFor(entries[i]))
  }

  ghost predicate Logged(log: Log, identity: Identity) {
    exists e :: e in log && e.identity == identity
  }

  ghost predicate LogWellFormed(codec: Codec, log: Log) {
    (forall e :: e in log ==> codec.identity(e.frame) == Some(e.identity)) &&
    (forall i, j :: 0 <= i < j < |log| ==> log[i].identity != log[j].identity)
  }

  /** The archive rows a session must have: all of its captures, none, or the newest one
      once the session has ended. */
  function ExpectedRows(policy: SavePolicy, open: bool, entries: seq<Entry>): seq<ArchiveRow> {
    match policy
    case SaveAll => RowsFor(entries)
    case SaveNone => []
    case SaveLast =>
      if open || entries == [] then [] else [RowFor(entries[|entries| - 1])]
  }

  function SavedCount(policy: SavePolicy, acquired: nat): nat {
    match policy
    case SaveAll => acquired
    case SaveNone => 0
    case SaveLast => if acquired == 0 then 0 else 1
  }

  predicate SameCapture(codec: Codec, t: Tombstone, e: Entry) {
    t.identity == e.identity && t.crc == codec.crc(e.frame) && t.sha == codec.sha(e.frame) &&
    t.session == e.session
  }

  /** The entry that the i-th remaining tombstone stands for. */
  function Remembers(log: Log, tombs: seq<Tombstone>, i: nat): Entry
    requires |tombs| <= |log| && i < |tombs|
  {
    log[|log| - |tombs| + i]
  }

  /** The tombstones are the newest part of the log. */
  ghost predicate TombstonesMatch(codec: Codec, log: Log, tombs: seq<Tombstone>) {
    |tombs| == (if |log| > TOMBSTONE_LIMIT then TOMBSTONE_LIMIT else |log|) &&
    forall i :: 0 <= i < |tombs| ==> SameCapture(codec, tombs[i], Remembers(log, tombs, i))
  }

  /** A tombstone says RAW_ARCHIVED exactly when the archive holds that frame's bytes. */
  ghost predicate ResolutionsMatch(log: Log, c: Tables)
    requires |c.tombs| <= |log|
  {
    forall i :: 0 <= i < |c.tombs| ==>
      (c.tombs[i].resolution.RawArchived? <==> RowFor(Remembers(log, c.tombs, i)) in c.archive)
  }

  ghost predicate StatsMatch(log: Log, stats: map<SessionId, Stats>) {
    forall s: SessionId :: var es := EntriesOf(log, s);
      (s in stats <==> es != []) &&
      (s in stats ==> stats[s] == Stats(|es|, es[|es| - 1].identity.capture))
  }

  ghost predicate ArchiveMatches(plan: Plan, log: Log, c: Tables) {
    forall s: SessionId :: RowsOf(c.archive, s) == ExpectedRows(plan(s), Open(c, s), EntriesOf(log, s))
  }

  ghost predicate LatestMatches(plan: Plan, log: Log, c: Tables) {
    forall s: SessionId :: var es := EntriesOf(log, s);
      (s in c.latest <==> plan(s).SaveLast? && Open(c, s) && es != []) &&
      (s in c.latest ==> c.latest[s].frame == es[|es| - 1].frame)
  }

  /** What an ended session's summary must say about its resolved captures and these rows. */
  predicate SummaryCorrect(summary: Summary, policy: SavePolicy, entries: seq<Entry>, rows: seq<ArchiveRow>) {
    summary.acquired == |entries| &&
    summary.saved == SavedCount(policy, |entries|) &&
    summary.acquired == summary.saved + summary.discarded &&
    (entries != [] ==> summary.lastCapture == Some(entries[|entries| - 1].identity.capture)) &&
    summary.lastSaved == (if rows == [] then None else Some(rows[|rows| - 1].identity.capture))
  }

  ghost predicate SummariesMatch(plan: Plan, log: Log, c: Tables) {
    forall s :: s in c.sessions && !Open(c, s) ==>
      SummaryCorrect(c.sessions[s], plan(s), EntriesOf(log, s), RowsOf(c.archive, s))
  }

  ghost predicate Accounted(codec: Codec, plan: Plan, log: Log, c: Tables) {
    LogWellFormed(codec, log) && TombstonesMatch(codec, log, c.tombs) && ResolutionsMatch(log, c) &&
    StatsMatch(log, c.stats) && ArchiveMatches(plan, log, c) && LatestMatches(plan, log, c) &&
    SummariesMatch(plan, log, c)
  }

  const EMPTY: Tables := Tables([], [], map[], map[], map[], map[])

  lemma EmptyAccounted(codec: Codec, plan: Plan)
    ensures Accounted(codec, plan, [], EMPTY)
  {
    forall s: SessionId ensures EntriesOf([], s) == [] && RowsOf([], s) == [] {
    }
  }

  // ---------------------------------------------------------------- the sequences

  lemma EntriesOfAppend(log: Log, e: Entry, s: SessionId)
    ensures EntriesOf(log + [e], s) == EntriesOf(log, s) + (if e.session == s then [e] else [])
  {
    assert (log + [e])[..|log|] == log;
  }

  lemma RowsOfAppend(archive: seq<ArchiveRow>, row: ArchiveRow, s: SessionId)
    ensures RowsOf(archive + [row], s) == RowsOf(archive, s) + (if row.session == s then [row] else [])
  {
    assert (archive + [row])[..|archive|] == archive;
  }

  lemma {:induction false} EntriesOfMembers(log: Log, e: Entry)
    ensures e in EntriesOf(log, e.session) <==> e in log
    ensures forall s :: e in EntriesOf(log, s) ==> s == e.session
  {
    if log != [] {
      var rest, last := log[..|log| - 1], log[|log| - 1];
      EntriesOfMembers(rest, e);
      assert log == rest + [last];
    }
  }

  lemma {:induction false} RowsOfMembers(archive: seq<ArchiveRow>, row: ArchiveRow)
    ensures row in RowsOf(archive, row.session) <==> row in archive
  {
    if archive != [] {
      var rest, last := archive[..|archive| - 1], archive[|archive| - 1];
      RowsOfMembers(rest, row);
      assert archive == rest + [last];
    }
  }

  lemma {:induction false} RowsOfWithout(archive: seq<ArchiveRow>, gone: SessionId, s: SessionId)
    ensures RowsOf(WithoutSession(archive, gone), s) == if s == gone then [] else RowsOf(archive, s)
  {
    if archive != [] {
      var rest, last := archive[..|archive| - 1], archive[|archive| - 1];
      RowsOfWithout(rest, gone, s);
      if last.session != gone {
        RowsOfAppend(WithoutSession(rest, gone), last, s);
      } else {
        assert WithoutSession(archive, gone) == WithoutSession(rest, gone);
      }
    }
  }

  lemma {:induction false} WithoutMembers(archive: seq<ArchiveRow>, gone: SessionId, row: ArchiveRow)
    ensures row in WithoutSession(archive, gone) <==> row in archive && row.session != gone
  {
    if archive != [] {
      var rest, last := archive[..|archive| - 1], archive[|archive| - 1];
      WithoutMembers(rest, gone, row);
      assert archive == rest + [last];
    }
  }

  /** Every archived row is a logged capture. */
  lemma ArchivedIsLogged(plan: Plan, log: Log, c: Tables, row: ArchiveRow)
    requires ArchiveMatches(plan, log, c) && row in c.archive
    ensures exists e :: e in log && RowFor(e) == row
  {
    var s := row.session;
    var es := EntriesOf(log, s);
    RowsOfMembers(c.archive, row);
    assert row in ExpectedRows(plan(s), Open(c, s), es);
    var i :| 0 <= i < |es| && RowFor(es[i]) == row;
    EntriesOfMembers(log, es[i]);
    assert es[i] in log;
  }

  lemma TombstoneIsLogged(codec: Codec, log: Log, tombs: seq<Tombstone>, i: nat)
    requires TombstonesMatch(codec, log, tombs) && i < |tombs|
    ensures Logged(log, tombs[i].identity)
  {
    assert SameCapture(codec, tombs[i], Remembers(log, tombs, i));
    assert Remembers(log, tombs, i) in log;
  }

  lemma UnloggedIsNew(codec: Codec, plan: Plan, log: Log, c: Tables, identity: Identity)
    requires TombstonesMatch(codec, log, c.tombs) && ArchiveMatches(plan, log, c)
    requires !Logged(log, identity)
    ensures FindTombstone(c.tombs, identity) == None
    ensures FindArchived(c.archive, identity) == None
  {
    forall t | t in c.tombs ensures t.identity != identity {
      var i :| 0 <= i < |c.tombs| && c.tombs[i] == t;
      TombstoneIsLogged(codec, log, c.tombs, i);
    }
    forall a | a in c.archive ensures a.identity != identity {
      ArchivedIsLogged(plan, log, c, a);
    }
  }

  // ---------------------------------------------------------------- adding one capture

  lemma AppendWellFormed(codec: Codec, log: Log, e: Entry)
    requires LogWellFormed(codec, log) && !Logged(log, e.identity)
    requires codec.identity(e.frame) == Some(e.identity)
    ensures LogWellFormed(codec, log + [e])
  {
    forall i, j | 0 <= i < j < |log| + 1
      ensures (log + [e])[i].identity != (log + [e])[j].identity
    {
      assert log[i] in log;
    }
  }

  /** Inserting the newest tombstone and pruning keeps the newest 4096 entries remembered. */
  lemma PruneMatches(codec: Codec, log: Log, tombs: seq<Tombstone>, e: Entry, t: Tombstone)
    requires TombstonesMatch(codec, log, tombs) && SameCapture(codec, t, e)
    ensures TombstonesMatch(codec, log + [e], Prune(tombs + [t]))
    ensures Prune(tombs + [t]) == tombs[|tombs| + 1 - |Prune(tombs + [t])|..] + [t]
    ensures forall i :: 0 <= i < |Prune(tombs + [t])| ==>
              Remembers(log + [e], Prune(tombs + [t]), i) ==
              if i == |Prune(tombs + [t])| - 1 then e
              else Remembers(log, tombs, i + |tombs| + 1 - |Prune(tombs + [t])|)
  {
    var after := Prune(tombs + [t]);
    var shift := |tombs| + 1 - |after|;
    assert after == tombs[shift..] + [t];
    forall i | 0 <= i < |after|
      ensures SameCapture(codec, after[i], Remembers(log + [e], after, i))
    {
      if i < |after| - 1 {
        assert after[i] == tombs[i + shift];
        assert SameCapture(codec, tombs[i + shift], Remembers(log, tombs, i + shift));
      }
    }
  }

  lemma CountMatches(log: Log, stats: map<SessionId, Stats>, e: Entry)
    requires StatsMatch(log, stats)
    ensures StatsMatch(log + [e], CountOne(stats, e.session, e.identity.capture))
  {
    var after := CountOne(stats, e.session, e.identity.capture);
    forall s: SessionId
      ensures var es := EntriesOf(log + [e], s);
              (s in after <==> es != []) &&
              (s in after ==> after[s] == Stats(|es|, es[|es| - 1].identity.capture))
    {
      EntriesOfAppend(log, e, s);
      assert s in stats <==> EntriesOf(log, s) != [];
    }
  }

  /** What one new capture adds to an open session's tables. */
  function WithNewCapture(
    codec: Codec, c: Tables, p: Parcel, policy: SavePolicy, session: SessionId, e: Entry): Tables
    requires codec.identity(p.frame).Some?
  {
    c.(archive := c.archive + (if policy.SaveAll? then [RowFor(e)] else []),
       latest := if policy.SaveLast? then c.latest[session := p] else c.latest,
       tombs := Prune(c.tombs + [TombstoneFor(codec, p, PolicyResolution(policy), session)]),
       stats := CountOne(c.stats, session, e.identity.capture))
  }

  ghost predicate NewCapture(codec: Codec, log: Log, c: Tables, p: Parcel, session: SessionId, e: Entry) {
    Deliverable(codec, p) && session != "" &&
    codec.identity(p.frame) == Some(e.identity) && e.session == session && e.frame == p.frame &&
    !Logged(log, e.identity)
  }

  lemma ExpectedAppend(policy: SavePolicy, entries: seq<Entry>, e: Entry)
    ensures ExpectedRows(policy, true, entries + [e]) ==
            ExpectedRows(policy, true, entries) + (if policy.SaveAll? then [RowFor(e)] else [])
  {
    if policy.SaveAll? {
      assert RowsFor(entries + [e]) == RowsFor(entries) + [RowFor(e)];
    }
  }

  lemma NewRows(policy: SavePolicy, archive: seq<ArchiveRow>, log: Log, open: bool, e: Entry, s: SessionId)
    requires RowsOf(archive, s) == ExpectedRows(policy, open, EntriesOf(log, s))
    requires s == e.session ==> open
    ensures policy.SaveAll? || s != e.session ==>
              RowsOf(archive + [RowFor(e)], s) ==
              (if s == e.session then ExpectedRows(policy, open, EntriesOf(log + [e], s)) else RowsOf(archive, s))
    ensures !policy.SaveAll? || s != e.session ==>
              RowsOf(archive, s) == ExpectedRows(policy, open, EntriesOf(log + [e], s))
  {
    hide RowsOf, EntriesOf, ExpectedRows;
    EntriesOfAppend(log, e, s);
    RowsOfAppend(archive, RowFor(e), s);
    ExpectedAppend(policy, EntriesOf(log, s), e);
    assert EntriesOf(log, s) + [] == EntriesOf(log, s);
    assert RowsOf(archive, s) + [] == RowsOf(archive, s);
  }

  lemma NewArchiveMatches(
    codec: Codec, plan: Plan, log: Log, c: Tables, p: Parcel, session: SessionId, e: Entry)
    requires ArchiveMatches(plan, log, c)
    requires NewCapture(codec, log, c, p, session, e) && Open(c, session)
    ensures ArchiveMatches(plan, log + [e], WithNewCapture(codec, c, p, plan(session), session, e))
  {
    hide Prune, CountOne, Deliverable, RowsOf, EntriesOf, ExpectedRows;
    var d := WithNewCapture(codec, c, p, plan(session), session, e);
    forall s: SessionId
      ensures RowsOf(d.archive, s) == ExpectedRows(plan(s), Open(d, s), EntriesOf(log + [e], s))
    {
      assert Open(d, s) == Open(c, s);
      NewRows(plan(s), c.archive, log, Open(c, s), e, s);
      assert c.archive + [] == c.archive;
    }
  }

  lemma NewLatestMatches(
    codec: Codec, plan: Plan, log: Log, c: Tables, p: Parcel, session: SessionId, e: Entry)
    requires LatestMatches(plan, log, c)
    requires NewCapture(codec, log, c, p, session, e) && Open(c, session)
    ensures LatestMatches(plan, log + [e], WithNewCapture(codec, c, p, plan(session), session, e))
  {
    hide RowsOf, EntriesOf, Prune, CountOne, Deliverable;
    var d := WithNewCapture(codec, c, p, plan(session), session, e);
    forall s: SessionId
      ensures var es := EntriesOf(log + [e], s);
              (s in d.latest <==> plan(s).SaveLast? && Open(d, s) && es != []) &&
              (s in d.latest ==> d.latest[s].frame == es[|es| - 1].frame)
    {
      EntriesOfAppend(log, e, s);
      assert s in c.latest <==> plan(s).SaveLast? && Open(c, s) && EntriesOf(log, s) != [];
    }
  }

  lemma NewSummariesMatch(
    codec: Codec, plan: Plan, log: Log, c: Tables, p: Parcel, session: SessionId, e: Entry)
    requires SummariesMatch(plan, log, c)
    requires NewCapture(codec, log, c, p, session, e) && Open(c, session)
    ensures SummariesMatch(plan, log + [e], WithNewCapture(codec, c, p, plan(session), session, e))
  {
    hide RowsOf, EntriesOf, Prune, CountOne, Deliverable;
    var d := WithNewCapture(codec, c, p, plan(session), session, e);
    forall s | s in d.sessions && !Open(d, s)
      ensures SummaryCorrect(d.sessions[s], plan(s), EntriesOf(log + [e], s), RowsOf(d.archive, s))
    {
      EntriesOfAppend(log, e, s);
      RowsOfAppend(c.archive, RowFor(e), s);
      assert c.archive + [] == c.archive;
    }
  }

  /** commit_delivery of a capture never seen before, into a session still open. */
  lemma CommitNewAccounted(
    codec: Codec, plan: Plan, log: Log, c: Tables, p: Parcel, session: SessionId, e: Entry)
    requires Accounted(codec, plan, log, c)
    requires NewCapture(codec, log, c, p, session, e) && Open(c, session)
    ensures var r := CommitDelivery(codec, c, p, plan(session), session);
            r.Resolved? && r.receipt == ReceiptFor(codec, p) && r.inserted &&
            Accounted(codec, plan, log + [e], r.tables)
  {
    hide RowsOf, EntriesOf, Prune, CountOne, Deliverable,
      ArchiveMatches, LatestMatches, ResolutionsMatch, StatsMatch, TombstonesMatch, SummariesMatch, LogWellFormed;
    var d := WithNewCapture(codec, c, p, plan(session), session, e);
    var t := TombstoneFor(codec, p, PolicyResolution(plan(session)), session);
    UnloggedIsNew(codec, plan, log, c, e.identity);
    assert CommitDelivery(codec, c, p, plan(session), session).tables == d by {
      assert c.archive + [] == c.archive;
    }
    AppendWellFormed(codec, log, e);
    PruneMatches(codec, log, c.tombs, e, t);
    CountMatches(log, c.stats, e);
    NewArchiveMatches(codec, plan, log, c, p, session, e);
    NewLatestMatches(codec, plan, log, c, p, session, e);
    NewSummariesMatch(codec, plan, log, c, p, session, e);
    UnloggedRow(plan, log, c, e);
    NewResolution(codec, log, c, d, e, t);
  }

  /** The new tombstone's resolution is right and no older one is disturbed, when the
      transaction archives at most the new row. */
  lemma NewResolution(codec: Codec, log: Log, c: Tables, d: Tables, e: Entry, t: Tombstone)
    requires TombstonesMatch(codec, log, c.tombs) && ResolutionsMatch(log, c)
    requires !Logged(log, e.identity) && RowFor(e) !in c.archive
    requires SameCapture(codec, t, e) && d.tombs == Prune(c.tombs + [t])
    requires d.archive == c.archive + (if t.resolution.RawArchived? then [RowFor(e)] else [])
    ensures TombstonesMatch(codec, log + [e], d.tombs) && ResolutionsMatch(log + [e], d)
  {
    PruneMatches(codec, log, c.tombs, e, t);
    forall i | 0 <= i < |d.tombs|
      ensures d.tombs[i].resolution.RawArchived? <==> RowFor(Remembers(log + [e], d.tombs, i)) in d.archive
    {
      if i < |d.tombs| - 1 {
        var j := i + |c.tombs| + 1 - |d.tombs|;
        var before := Remembers(log, c.tombs, j);
        assert before in log;
        assert RowFor(before) != RowFor(e);
        assert c.tombs[j].resolution.RawArchived? <==> RowFor(before) in c.archive;
      }
    }
  }

  lemma UnloggedRow(plan: Plan, log: Log, c: Tables, e: Entry)
    requires ArchiveMatches(plan, log, c) && !Logged(log, e.identity)
    ensures RowFor(e) !in c.archive
  {
    if RowFor(e) in c.archive {
      ArchivedIsLogged(plan, log, c, RowFor(e));
    }
  }

  // ---------------------------------------------------------------- ending a session

  /** Everything is accounted for, except possibly the stored summary of one session. */
  ghost predicate AccountedExcept(codec: Codec, plan: Plan, log: Log, c: Tables, x: SessionId) {
    LogWellFormed(codec, log) && TombstonesMatch(codec, log, c.tombs) && ResolutionsMatch(log, c) &&
    StatsMatch(log, c.stats) && ArchiveMatches(plan, log, c) && LatestMatches(plan, log, c) &&
    forall s :: s in c.sessions && !Open(c, s) && s != x ==>
      SummaryCorrect(c.sessions[s], plan(s), EntriesOf(log, s), RowsOf(c.archive, s))
  }

  /** A summary may be stored under SAVE_LAST for a single-shot session whose frame was
      delivered under SAVE_ALL. */
  predicate SummaryPolicy(plan: Plan, s: SessionId, policy: SavePolicy) {
    policy == plan(s) || plan(s).SaveAll?
  }

  lemma {:induction false} TombstonesOfMembers(tombs: seq<Tombstone>, s: SessionId)
    ensures TombstonesOf(tombs, s) != [] ==> exists i :: 0 <= i < |tombs| && tombs[i].session == s
  {
    if tombs != [] {
      TombstonesOfMembers(tombs[..|tombs| - 1], s);
    }
  }

  /** The count the finalizer uses is the number of captures ever resolved in the session,
      however many tombstones have been pruned. */
  lemma AcquiredCount(codec: Codec, log: Log, c: Tables, s: SessionId)
    requires TombstonesMatch(codec, log, c.tombs) && StatsMatch(log, c.stats)
    ensures |EntriesOf(log, s)| ==
            (if s in c.stats then c.stats[s].acquired else |TombstonesOf(c.tombs, s)|)
  {
    assert s in c.stats <==> EntriesOf(log, s) != [];
    TombstonesOfMembers(c.tombs, s);
    if EntriesOf(log, s) == [] {
      forall i | 0 <= i < |c.tombs| ensures c.tombs[i].session != s {
        var e := Remembers(log, c.tombs, i);
        assert SameCapture(codec, c.tombs[i], e);
        EntriesOfMembers(log, e);
        assert e in log;
      }
    }
  }

  /** Likewise the last capture it names, as long as the session resolved any. */
  lemma LastResolved(codec: Codec, log: Log, c: Tables, s: SessionId)
    requires TombstonesMatch(codec, log, c.tombs) && StatsMatch(log, c.stats)
    ensures var es := EntriesOf(log, s);
            (s in c.stats <==> es != []) && (es == [] ==> TombstonesOf(c.tombs, s) == []) &&
            (es != [] ==> c.stats[s].last == es[|es| - 1].identity.capture)
  {
    AcquiredCount(codec, log, c, s);
    assert s in c.stats <==> EntriesOf(log, s) != [];
  }

  lemma EntryUnique(codec: Codec, log: Log, a: Entry, b: Entry)
    requires LogWellFormed(codec, log) && a in log && b in log && a.identity == b.identity
    ensures a == b
  {
    var i :| 0 <= i < |log| && log[i] == a;
    var j :| 0 <= j < |log| && log[j] == b;
    if i < j || j < i {
      assert false;
    }
  }

  lemma RollingNotArchived(codec: Codec, plan: Plan, log: Log, c: Tables, s: SessionId)
    requires LogWellFormed(codec, log) && ArchiveMatches(plan, log, c)
    requires plan(s).SaveLast? && Open(c, s) && EntriesOf(log, s) != []
    ensures var es := EntriesOf(log, s); var e := es[|es| - 1];
            e in log && e.session == s && FindArchived(c.archive, e.identity) == None && RowFor(e) !in c.archive
  {
    var es := EntriesOf(log, s);
    var e := es[|es| - 1];
    EntriesOfMembers(log, e);
    assert RowsOf(c.archive, s) == ExpectedRows(plan(s), Open(c, s), EntriesOf(log, s)) == [];
    forall a | a in c.archive ensures a.identity != e.identity {
      if a.identity == e.identity {
        ArchivedIsLogged(plan, log, c, a);
        var f :| f in log && RowFor(f) == a;
        EntryUnique(codec, log, e, f);
        RowsOfMembers(c.archive, a);
      }
    }
  }

  /** The tables after the rolling frame of s has moved to the archive. */
  function WithFrozen(c: Tables, s: SessionId, e: Entry): Tables {
    c.(archive := c.archive + [RowFor(e)], latest := c.latest - {s}, tombs := MarkArchived(c.tombs, e.identity))
  }

  /** Moving the rolling frame archives exactly the newest capture and updates its tombstone,
      if that tombstone still exists. */
  lemma FreezeMatches(codec: Codec, plan: Plan, log: Log, c: Tables, s: SessionId, e: Entry)
    requires LogWellFormed(codec, log) && TombstonesMatch(codec, log, c.tombs) && ResolutionsMatch(log, c)
    requires e in log && RowFor(e) !in c.archive
    ensures var d := WithFrozen(c, s, e);
            TombstonesMatch(codec, log, d.tombs) && ResolutionsMatch(log, d)
  {
    var d := WithFrozen(c, s, e);
    forall i | 0 <= i < |d.tombs|
      ensures SameCapture(codec, d.tombs[i], Remembers(log, d.tombs, i))
      ensures d.tombs[i].resolution.RawArchived? <==> RowFor(Remembers(log, d.tombs, i)) in d.archive
    {
      var r := Remembers(log, c.tombs, i);
      assert SameCapture(codec, c.tombs[i], r) && r in log;
      assert c.tombs[i].resolution.RawArchived? <==> RowFor(r) in c.archive;
      if r.identity == e.identity {
        EntryUnique(codec, log, r, e);
      }
    }
  }

  /** The tables FinalizeSession recounts. */
  function Frozen(plan: Plan, log: Log, c: Tables, s: SessionId): Tables {
    var es := EntriesOf(log, s);
    if plan(s).SaveLast? && Open(c, s) && es != [] then WithFrozen(c, s, es[|es| - 1]) else c
  }

  lemma FreezeResult(
    codec: Codec, plan: Plan, log: Log, c: Tables, s: SessionId, policy: SavePolicy)
    requires LogWellFormed(codec, log) && ArchiveMatches(plan, log, c) && LatestMatches(plan, log, c)
    requires SummaryPolicy(plan, s, policy)
    ensures (if policy.SaveLast? then FinalizeLatest(codec, c, s) else Some(c)) == Some(Frozen(plan, log, c, s))
  {
    hide EntriesOf, RowsOf, ArchiveMatches;
    var es := EntriesOf(log, s);
    assert s in c.latest <==> plan(s).SaveLast? && Open(c, s) && es != [];
    if s in c.latest {
      RollingNotArchived(codec, plan, log, c, s);
    }
  }

  /** The recounted summary of an ended session. */
  function Recounted(
    entries: seq<Entry>, rows: seq<ArchiveRow>, payload: Summary): Summary
  {
    payload.(
      acquired := |entries|, saved := |rows|,
      discarded := if |entries| >= |rows| then |entries| - |rows| else 0,
      lastCapture := if entries != [] then Some(entries[|entries| - 1].identity.capture) else payload.lastCapture,
      lastSaved := if rows == [] then None else Some(rows[|rows| - 1].identity.capture))
  }

  lemma FinalizeShape(
    codec: Codec, plan: Plan, log: Log, c: Tables, s: SessionId, payload: Summary, policy: SavePolicy)
    requires AccountedExcept(codec, plan, log, c, s) && SummaryPolicy(plan, s, policy)
    ensures var frozen := Frozen(plan, log, c, s);
            FinalizeSession(codec, c, s, payload, policy) ==
            Some(frozen.(sessions := c.sessions[s :=
              Recounted(EntriesOf(log, s), RowsOf(frozen.archive, s), payload)]))
  {
    hide EntriesOf, RowsOf, TombstonesOf, FinalizeLatest, ArchiveMatches, LatestMatches, StatsMatch,
      TombstonesMatch, ResolutionsMatch;
    AcquiredCount(codec, log, c, s);
    LastResolved(codec, log, c, s);
    FreezeResult(codec, plan, log, c, s, policy);
  }

  lemma FrozenRows(plan: Plan, log: Log, c: Tables, s: SessionId, t: SessionId)
    requires ArchiveMatches(plan, log, c)
    ensures RowsOf(Frozen(plan, log, c, s).archive, t) ==
              if t == s then ExpectedRows(plan(s), false, EntriesOf(log, s)) else RowsOf(c.archive, t)
  {
    hide EntriesOf, RowsOf;
    var es := EntriesOf(log, s);
    assert RowsOf(c.archive, s) == ExpectedRows(plan(s), Open(c, s), EntriesOf(log, s));
    if plan(s).SaveLast? && Open(c, s) && es != [] {
      var e := es[|es| - 1];
      EntriesOfMembers(log, e);
      RowsOfAppend(c.archive, RowFor(e), t);
    }
  }

  lemma FrozenMatches(codec: Codec, plan: Plan, log: Log, c: Tables, s: SessionId)
    requires AccountedExcept(codec, plan, log, c, s)
    ensures var d := Frozen(plan, log, c, s);
            TombstonesMatch(codec, log, d.tombs) && ResolutionsMatch(log, d) && d.stats == c.stats
  {
    hide EntriesOf, RowsOf;
    if plan(s).SaveLast? && Open(c, s) && EntriesOf(log, s) != [] {
      RollingNotArchived(codec, plan, log, c, s);
      FreezeMatches(codec, plan, log, c, s, EntriesOf(log, s)[|EntriesOf(log, s)| - 1]);
    }
  }

  lemma ExpectedCount(policy: SavePolicy, entries: seq<Entry>)
    ensures |ExpectedRows(policy, false, entries)| == SavedCount(policy, |entries|) <= |entries|
  {
  }

  lemma FinalizedArchive(plan: Plan, log: Log, c: Tables, d: Tables, s: SessionId)
    requires ArchiveMatches(plan, log, c) && d.archive == Frozen(plan, log, c, s).archive
    requires !Open(d, s) && forall t :: t != s ==> Open(d, t) == Open(c, t)
    ensures ArchiveMatches(plan, log, d)
  {
    hide EntriesOf, RowsOf, ExpectedRows, Frozen;
    forall t: SessionId
      ensures RowsOf(d.archive, t) == ExpectedRows(plan(t), Open(d, t), EntriesOf(log, t))
    {
      FrozenRows(plan, log, c, s, t);
      assert RowsOf(c.archive, t) == ExpectedRows(plan(t), Open(c, t), EntriesOf(log, t));
    }
  }

  lemma FinalizedSummaries(
    codec: Codec, plan: Plan, log: Log, c: Tables, d: Tables, s: SessionId, payload: Summary)
    requires AccountedExcept(codec, plan, log, c, s) && d.archive == Frozen(plan, log, c, s).archive
    requires d.sessions == c.sessions[s := Recounted(EntriesOf(log, s), RowsOf(d.archive, s), payload)]
    ensures SummariesMatch(plan, log, d)
  {
    hide EntriesOf, RowsOf, ExpectedRows, Frozen, StatsMatch, LatestMatches, TombstonesMatch, ResolutionsMatch;
    forall t | t in d.sessions && !Open(d, t)
      ensures SummaryCorrect(d.sessions[t], plan(t), EntriesOf(log, t), RowsOf(d.archive, t))
    {
      FrozenRows(plan, log, c, s, t);
      ExpectedCount(plan(s), EntriesOf(log, s));
      assert t != s ==> (Open(d, t) <==> Open(c, t));
    }
  }

  /** Ending a session, or recounting one that has ended, leaves everything accounted for. */
  lemma FinalizeAccounted(
    codec: Codec, plan: Plan, log: Log, c: Tables, s: SessionId, payload: Summary, policy: SavePolicy)
    requires AccountedExcept(codec, plan, log, c, s) && payload.state.Ended? && SummaryPolicy(plan, s, policy)
    ensures var r := FinalizeSession(codec, c, s, payload, policy);
            r.Some? && Accounted(codec, plan, log, r.value) && !Open(r.value, s)
  {
    hide EntriesOf, RowsOf, ExpectedRows, FinalizeSession, Frozen, StatsMatch, LatestMatches, ArchiveMatches,
      TombstonesMatch, SummariesMatch;
    FinalizeShape(codec, plan, log, c, s, payload, policy);
    var d := FinalizeSession(codec, c, s, payload, policy).value;
    FrozenMatches(codec, plan, log, c, s);
    FrozenLatest(plan, log, c, s);
    FinalizedArchive(plan, log, c, d, s);
    FinalizeLatestMatches(plan, log, c, d, s);
    FinalizedSummaries(codec, plan, log, c, d, s, payload);
  }

  lemma FrozenLatest(plan: Plan, log: Log, c: Tables, s: SessionId)
    requires LatestMatches(plan, log, c)
    ensures var d := Frozen(plan, log, c, s);
            d.sessions == c.sessions &&
            (d.latest == c.latest - {s} || (d.latest == c.latest && s !in c.latest))
  {
    hide EntriesOf;
    assert s in c.latest <==> plan(s).SaveLast? && Open(c, s) && EntriesOf(log, s) != [];
  }

  lemma FinalizeLatestMatches(plan: Plan, log: Log, c: Tables, d: Tables, s: SessionId)
    requires LatestMatches(plan, log, c)
    requires d.latest == c.latest - {s} || (d.latest == c.latest && s !in c.latest)
    requires forall t :: t != s ==> Open(d, t) == Open(c, t)
    requires !Open(d, s)
    ensures LatestMatches(plan, log, d)
  {
    hide EntriesOf;
    forall t: SessionId
      ensures var es := EntriesOf(log, t);
              (t in d.latest <==> plan(t).SaveLast? && Open(d, t) && es != []) &&
              (t in d.latest ==> d.latest[t].frame == es[|es| - 1].frame)
    {
      assert t in c.latest <==> plan(t).SaveLast? && Open(c, t) && EntriesOf(log, t) != [];
    }
  }

  // ---------------------------------------------------------------- late frames of an ended session

  /** SAVE_LAST first withdraws what the session had archived. */
  function Withdrawn(c: Tables, policy: SavePolicy, session: SessionId): Tables {
    if policy.SaveLast?
    then c.(archive := WithoutSession(c.archive, session), tombs := DiscardSession(c.tombs, session))
    else c
  }

  function WithLateCapture(
    codec: Codec, c: Tables, p: Parcel, policy: SavePolicy, session: SessionId, e: Entry): Tables
    requires codec.identity(p.frame).Some?
  {
    var base := Withdrawn(c, policy, session);
    var resolution := if policy.SaveNone? then DiscardedByPolicy else RawArchived;
    base.(archive := base.archive + (if policy.SaveNone? then [] else [RowFor(e)]),
          tombs := Prune(base.tombs + [TombstoneFor(codec, p, resolution, session)]),
          stats := CountOne(base.stats, session, e.identity.capture))
  }

  lemma WithdrawnMatches(codec: Codec, log: Log, c: Tables, policy: SavePolicy, session: SessionId)
    requires TombstonesMatch(codec, log, c.tombs) && ResolutionsMatch(log, c)
    ensures var d := Withdrawn(c, policy, session);
            TombstonesMatch(codec, log, d.tombs) && ResolutionsMatch(log, d)
  {
    var d := Withdrawn(c, policy, session);
    forall i | 0 <= i < |d.tombs|
      ensures SameCapture(codec, d.tombs[i], Remembers(log, d.tombs, i))
      ensures d.tombs[i].resolution.RawArchived? <==> RowFor(Remembers(log, d.tombs, i)) in d.archive
    {
      var r := Remembers(log, c.tombs, i);
      assert SameCapture(codec, c.tombs[i], r);
      assert c.tombs[i].resolution.RawArchived? <==> RowFor(r) in c.archive;
      WithoutMembers(c.archive, session, RowFor(r));
    }
  }

  lemma WithdrawnNew(c: Tables, policy: SavePolicy, session: SessionId, e: Entry)
    requires FindArchived(c.archive, e.identity) == None && RowFor(e) !in c.archive
    ensures FindArchived(Withdrawn(c, policy, session).archive, e.identity) == None
    ensures RowFor(e) !in Withdrawn(c, policy, session).archive
  {
    forall a | a in Withdrawn(c, policy, session).archive ensures a in c.archive {
      WithoutMembers(c.archive, session, a);
    }
  }

  lemma LateRows(policy: SavePolicy, archive: seq<ArchiveRow>, log: Log, e: Entry, s: SessionId, open: bool)
    requires RowsOf(archive, s) == ExpectedRows(policy, open, EntriesOf(log, s))
    requires s == e.session ==> !open
    ensures s != e.session ==>
      var expected := ExpectedRows(policy, open, EntriesOf(log + [e], s));
      RowsOf(archive, s) == RowsOf(archive + [RowFor(e)], s) ==
        RowsOf(WithoutSession(archive, e.session) + [RowFor(e)], s) == expected
    ensures s == e.session && policy.SaveAll? ==>
      RowsOf(archive + [RowFor(e)], s) == ExpectedRows(policy, open, EntriesOf(log + [e], s))
    ensures s == e.session && policy.SaveNone? ==>
      RowsOf(archive, s) == ExpectedRows(policy, open, EntriesOf(log + [e], s))
    ensures s == e.session && policy.SaveLast? ==>
      RowsOf(WithoutSession(archive, s) + [RowFor(e)], s) == ExpectedRows(policy, open, EntriesOf(log + [e], s))
  {
    hide RowsOf, EntriesOf, WithoutSession;
    EntriesOfAppend(log, e, s);
    RowsOfAppend(archive, RowFor(e), s);
    RowsOfWithout(archive, e.session, s);
    RowsOfAppend(WithoutSession(archive, e.session), RowFor(e), s);
    assert RowsFor(EntriesOf(log, s) + [e]) == RowsFor(EntriesOf(log, s)) + [RowFor(e)];
  }

  lemma LateArchiveMatches(
    codec: Codec, plan: Plan, log: Log, c: Tables, p: Parcel, session: SessionId, e: Entry)
    requires ArchiveMatches(plan, log, c)
    requires NewCapture(codec, log, c, p, session, e) && !Open(c, session)
    ensures ArchiveMatches(plan, log + [e], WithLateCapture(codec, c, p, plan(session), session, e))
  {
    hide RowsOf, EntriesOf, WithoutSession, ExpectedRows, Prune, CountOne, Deliverable, DiscardSession;
    var d := WithLateCapture(codec, c, p, plan(session), session, e);
    forall s: SessionId
      ensures RowsOf(d.archive, s) == ExpectedRows(plan(s), Open(d, s), EntriesOf(log + [e], s))
    {
      assert Open(d, s) == Open(c, s);
      LateRows(plan(s), c.archive, log, e, s, Open(c, s));
      assert c.archive + [] == c.archive;
    }
  }

  lemma LateLatestMatches(
    codec: Codec, plan: Plan, log: Log, c: Tables, p: Parcel, session: SessionId, e: Entry)
    requires LatestMatches(plan, log, c)
    requires NewCapture(codec, log, c, p, session, e) && !Open(c, session)
    ensures LatestMatches(plan, log + [e], WithLateCapture(codec, c, p, plan(session), session, e))
  {
    hide RowsOf, EntriesOf, WithoutSession, Prune, CountOne, Deliverable, DiscardSession;
    var d := WithLateCapture(codec, c, p, plan(session), session, e);
    assert d.latest == c.latest && d.sessions == c.sessions;
    forall s: SessionId
      ensures var es := EntriesOf(log + [e], s);
              (s in d.latest <==> plan(s).SaveLast? && Open(d, s) && es != []) &&
              (s in d.latest ==> d.latest[s].frame == es[|es| - 1].frame)
    {
      EntriesOfAppend(log, e, s);
      assert s in c.latest <==> plan(s).SaveLast? && Open(c, s) && EntriesOf(log, s) != [];
      assert EntriesOf(log, s) + [] == EntriesOf(log, s);
    }
  }

  /** Neither the entries nor the rows of another session change. */
  lemma LateOthersKept(
    codec: Codec, c: Tables, p: Parcel, policy: SavePolicy, session: SessionId, log: Log, e: Entry, s: SessionId)
    requires codec.identity(p.frame).Some? && e.session == session != s
    ensures EntriesOf(log + [e], s) == EntriesOf(log, s)
    ensures RowsOf(WithLateCapture(codec, c, p, policy, session, e).archive, s) == RowsOf(c.archive, s)
  {
    hide RowsOf, EntriesOf, WithoutSession, Prune, CountOne, DiscardSession, TombstoneFor;
    EntriesOfAppend(log, e, s);
    RowsOfAppend(c.archive, RowFor(e), s);
    RowsOfWithout(c.archive, session, s);
    RowsOfAppend(WithoutSession(c.archive, session), RowFor(e), s);
    assert c.archive + [] == c.archive && RowsOf(c.archive, s) + [] == RowsOf(c.archive, s);
    assert EntriesOf(log, s) + [] == EntriesOf(log, s);
  }

  lemma LateSummariesMatch(
    codec: Codec, plan: Plan, log: Log, c: Tables, p: Parcel, session: SessionId, e: Entry)
    requires SummariesMatch(plan, log, c)
    requires NewCapture(codec, log, c, p, session, e)
    ensures var d := WithLateCapture(codec, c, p, plan(session), session, e);
            forall s :: s in d.sessions && !Open(d, s) && s != session ==>
              SummaryCorrect(d.sessions[s], plan(s), EntriesOf(log + [e], s), RowsOf(d.archive, s))
  {
    hide RowsOf, EntriesOf, WithoutSession, Prune, CountOne, Deliverable, DiscardSession, SummaryCorrect;
    var d := WithLateCapture(codec, c, p, plan(session), session, e);
    assert d.sessions == c.sessions;
    forall s | s in d.sessions && !Open(d, s) && s != session
      ensures SummaryCorrect(d.sessions[s], plan(s), EntriesOf(log + [e], s), RowsOf(d.archive, s))
    {
      assert !Open(c, s);
      LateOthersKept(codec, c, p, plan(session), session, log, e, s);
    }
  }

  /** A frame replayed after its session ended reopens that session's accounting: the summary
      is recounted and, under SAVE_LAST, the late frame replaces the archived one. */
  lemma TerminalReplayAccounted(
    codec: Codec, plan: Plan, log: Log, c: Tables, p: Parcel, session: SessionId, e: Entry)
    requires Accounted(codec, plan, log, c)
    requires NewCapture(codec, log, c, p, session, e) && !Open(c, session)
    ensures var r := CommitTerminalReplay(codec, c, p, session, plan(session));
            r.Resolved? && r.receipt == ReceiptFor(codec, p) && r.inserted &&
            Accounted(codec, plan, log + [e], r.tables)
  {
    hide RowsOf, EntriesOf, WithoutSession, DiscardSession, Prune, CountOne, FinalizeSession, Deliverable,
      ArchiveMatches, LatestMatches, ResolutionsMatch, StatsMatch, TombstonesMatch, LogWellFormed;
    var policy := plan(session);
    var d := WithLateCapture(codec, c, p, policy, session, e);
    var base := Withdrawn(c, policy, session);
    var resolution := if policy.SaveNone? then DiscardedByPolicy else RawArchived;
    UnloggedIsNew(codec, plan, log, c, e.identity);
    UnloggedRow(plan, log, c, e);
    WithdrawnNew(c, policy, session, e);
    WithdrawnMatches(codec, log, c, policy, session);
    AppendWellFormed(codec, log, e);
    CountMatches(log, c.stats, e);
    LateArchiveMatches(codec, plan, log, c, p, session, e);
    LateLatestMatches(codec, plan, log, c, p, session, e);
    LateSummariesMatch(codec, plan, log, c, p, session, e);
    NewResolution(codec, log, base, d, e, TombstoneFor(codec, p, resolution, session));
    FinalizeAccounted(codec, plan, log + [e], d, session, c.sessions[session], policy);
    assert base.archive + [] == base.archive;
  }

  // ---------------------------------------------------------------- the rest of the store's life

  /** Starting a session, or moving a running one to STOPPING, leaves the accounts alone. */
  lemma SessionRowAccounted(codec: Codec, plan: Plan, log: Log, c: Tables, s: SessionId, summary: Summary)
    requires Accounted(codec, plan, log, c) && Open(c, s) && !summary.state.Ended?
    ensures Accounted(codec, plan, log, c.(sessions := c.sessions[s := summary]))
  {
    hide RowsOf, EntriesOf, ExpectedRows, StatsMatch, TombstonesMatch, LogWellFormed;
    var d := c.(sessions := c.sessions[s := summary]);
    forall t: SessionId ensures Open(d, t) == Open(c, t) {
    }
  }

  lemma ContextsAccounted(
    codec: Codec, plan: Plan, log: Log, c: Tables, contexts: map<(Id16, Id16), Context>)
    requires Accounted(codec, plan, log, c)
    ensures Accounted(codec, plan, log, c.(contexts := contexts))
  {
    hide RowsOf, EntriesOf, ExpectedRows, StatsMatch, TombstonesMatch, LogWellFormed;
    var d := c.(contexts := contexts);
    forall t: SessionId ensures Open(d, t) == Open(c, t) {
    }
  }

  /** A capture that the log ends with is always remembered, however much is pruned. */
  lemma NewestRemembered(codec: Codec, plan: Plan, log: Log, c: Tables)
    requires Accounted(codec, plan, log, c) && log != []
    ensures var e := log[|log| - 1];
            var t := FindTombstone(c.tombs, e.identity);
            t.Some? && t.value.crc == codec.crc(e.frame) && t.value.sha == codec.sha(e.frame)
  {
    var e := log[|log| - 1];
    var n := |c.tombs|;
    assert Remembers(log, c.tombs, n - 1) == e;
    assert SameCapture(codec, c.tombs[n - 1], e);
    var t := FindTombstone(c.tombs, e.identity);
    var i :| 0 <= i < n && c.tombs[i] == t.value;
    var r := Remembers(log, c.tombs, i);
    assert SameCapture(codec, c.tombs[i], r);
    assert r in log && e in log;
    EntryUnique(codec, log, r, e);
  }
}
