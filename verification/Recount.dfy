/** Two ways of counting a session's captures: the running counter, and its tombstones where no
    counter was kept. */
module Recount {
  import opened Bytes
  import opened Delivery
  import opened CoreStore
  import opened Accounting

  predicate Aligned(codec: Codec, log: Log, tombs: seq<Tombstone>) {
    |tombs| == |log| && forall i :: 0 <= i < |log| ==> SameCapture(codec, tombs[i], log[i])
  }

  /** Capture for capture, the tombstones of a session are its entries in the log. */
  lemma {:induction false} SessionAligned(codec: Codec, log: Log, tombs: seq<Tombstone>, session: SessionId)
    requires Aligned(codec, log, tombs)
    ensures var mine, es := TombstonesOf(tombs, session), EntriesOf(log, session);
            |mine| == |es| && (mine != [] ==> mine[|mine| - 1].identity == es[|es| - 1].identity)
    decreases |log|
  {
    if log != [] {
      var n := |log| - 1;
      assert tombs[..n][..n] == tombs[..n];
      assert SameCapture(codec, tombs[n], log[n]);
      forall i | 0 <= i < n ensures SameCapture(codec, tombs[..n][i], log[..n][i]) {
        assert SameCapture(codec, tombs[i], log[i]);
      }
      SessionAligned(codec, log[..n], tombs[..n], session);
    }
  }

  lemma NothingForgotten(codec: Codec, plan: Plan, log: Log, c: Tables)
    requires Accounted(codec, plan, log, c) && |log| <= 4096
    ensures Aligned(codec, log, c.tombs)
  {
    hide ResolutionsMatch, StatsMatch, ArchiveMatches, LatestMatches, SummariesMatch, LogWellFormed, SameCapture;
    forall i | 0 <= i < |log| ensures SameCapture(codec, c.tombs[i], log[i]) {
      assert Remembers(log, c.tombs, i) == log[i];
    }
  }

  lemma StatsCount(log: Log, stats: map<SessionId, Stats>, session: SessionId)
    requires StatsMatch(log, stats)
    ensures var es := EntriesOf(log, session);
            (session in stats <==> es != []) &&
            (es != [] ==> stats[session] == Stats(|es|, es[|es| - 1].identity.capture))
  {
  }

  lemma FreezeIgnoresStats(codec: Codec, c: Tables, stats: map<SessionId, Stats>, session: SessionId)
    ensures var kept := FinalizeLatest(codec, c, session);
            var lost := FinalizeLatest(codec, c.(stats := stats), session);
            (kept.None? <==> lost.None?) &&
            (kept.Some? ==> kept.value.stats == c.stats && lost.value == kept.value.(stats := stats))
  {
    hide Archive, MarkArchived;
  }

  lemma SameRecount(codec: Codec, c: Tables, session: SessionId, payload: Summary, policy: SavePolicy)
    requires var mine := TombstonesOf(c.tombs, session);
             (session in c.stats <==> mine != []) &&
             (mine != [] ==> c.stats[session] == Stats(|mine|, mine[|mine| - 1].identity.capture))
    ensures var kept := FinalizeSession(codec, c, session, payload, policy);
            var lost := FinalizeSession(codec, c.(stats := c.stats - {session}), session, payload, policy);
            (kept.None? <==> lost.None?) &&
            (kept.Some? ==> lost.value == kept.value.(stats := kept.value.stats - {session}))
  {
    FreezeIgnoresStats(codec, c, c.stats - {session}, session);
    hide TombstonesOf, RowsOf, FinalizeLatest;
  }

  lemma Counted(codec: Codec, plan: Plan, log: Log, c: Tables, session: SessionId)
    requires Accounted(codec, plan, log, c) && |log| <= 4096
    ensures var mine := TombstonesOf(c.tombs, session);
            (session in c.stats <==> mine != []) &&
            (mine != [] ==> c.stats[session] == Stats(|mine|, mine[|mine| - 1].identity.capture))
  {
    NothingForgotten(codec, plan, log, c);
    SessionAligned(codec, log, c.tombs, session);
    StatsCount(log, c.stats, session);
    hide TombstonesOf, EntriesOf, Aligned;
  }

  /** Up to 4096 resolutions, ending a session gives the same tables and the same summary whether or not
      its counter was kept: the tombstones count the captures and name the last one. */
  lemma RecountedAlike(codec: Codec, plan: Plan, log: Log, c: Tables, session: SessionId, payload: Summary, policy: SavePolicy)
    requires Accounted(codec, plan, log, c) && |log| <= 4096
    ensures var kept := FinalizeSession(codec, c, session, payload, policy);
            var lost := FinalizeSession(codec, c.(stats := c.stats - {session}), session, payload, policy);
            (kept.None? <==> lost.None?) &&
            (kept.Some? ==> lost.value == kept.value.(stats := kept.value.stats - {session}))
  {
    hide *;
    Counted(codec, plan, log, c, session);
    SameRecount(codec, c, session, payload, policy);
  }
}
