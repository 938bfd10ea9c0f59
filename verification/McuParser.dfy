/** The firmware's byte-at-a-time parser: 256 bytes of storage, one candidate, no rescanning. */
module McuParser {
  import opened Bytes
  import opened Frame
  import opened HostStreamParser
  import Crc32

  const RING_SIZE := 256
  const MAX_PAYLOAD := 192

  datatype Result =
    | Incomplete
    | Received(frame: Frame)
    | InvalidLength
    | BadCrc
    | InvalidHeader
    | InvalidPayload

  /** The exact payload length of each request type; other types are only bounded. */
  predicate LengthRule(t: byte, length: nat) {
    length <= MAX_PAYLOAD &&
    (t == HELLO ==> length == 20) &&
    (t == GET_CAPABILITIES || t == GET_CONFIG || t == GET_STATUS ==> length == 0) &&
    (t == CAPTURE_ONCE ==> length == 60) &&
    (t == RUN_IO2_LOOPBACK_TEST ==> length == 56) &&
    (t == START_PERIODIC ==> length == 80) &&
    (t == STOP ==> length == 32) &&
    (t == RENEW_PERIODIC_LEASE ==> length == 40) &&
    (t == SET_CONFIG ==> length == 120)
  }

  predicate PayloadRule(t: byte, payload: seq<byte>)
    requires LengthRule(t, |payload|)
  {
    if t == HELLO then
      payload[16] <= payload[17] && payload[18] == 0 && payload[19] == 0 &&
      payload[16] <= VERSION && payload[17] >= VERSION
    else if t == SET_CONFIG then payload[62] == 10
    else if t == CAPTURE_ONCE then payload[53] == 0 && payload[54] == 0 && payload[55] == 0 && payload[52] <= 2
    else if t == RUN_IO2_LOOPBACK_TEST then payload[52..56] == [8, 0, 0, 0]
    else if t == START_PERIODIC then
      payload[16..32] != Zeros(16) && U32At(payload, 68) >= 100_000 && 1000 <= U32At(payload, 76) <= 10_000
    else if t == RENEW_PERIODIC_LEASE then
      U32At(payload, 32) != 0 && 1000 <= U32At(payload, 36) <= 10_000
    else true
  }

  /** A request the firmware takes. */
  predicate Acceptable(f: Frame) {
    f.flags < 8 && LengthRule(f.messageType, |f.payload|) && PayloadRule(f.messageType, f.payload)
  }

  /** The bytes of the candidate so far; expected is zero until its header is complete. */
  datatype Parser = Parser(bytes: seq<byte>, expected: nat)

  const HUNTING := Parser([], 0)

  predicate HeaderOk(s: seq<byte>)
    requires |s| >= HEADER_SIZE
  {
    s[4] == VERSION && U16At(s, 6) < 8
  }

  function CheckHeader(s: seq<byte>): Result
    requires |s| >= HEADER_SIZE
  {
    if !HeaderOk(s) then InvalidHeader
    else if !LengthRule(s[5], U32At(s, 12)) then InvalidLength
    else Incomplete
  }

  function Total(s: seq<byte>): nat
    requires |s| >= HEADER_SIZE
  {
    HEADER_SIZE + U32At(s, 12) + CRC_SIZE
  }

  /** A complete candidate: checksum first, then the payload. */
  function Judge(s: seq<byte>): Result
    requires |s| >= HEADER_SIZE && |s| == Total(s) && LengthRule(s[5], U32At(s, 12))
  {
    var payload := s[HEADER_SIZE..|s| - CRC_SIZE];
    if U32At(s, |s| - CRC_SIZE) != Crc32.Checksum(s[4..|s| - CRC_SIZE]) then BadCrc
    else if !PayloadRule(s[5], payload) then InvalidPayload
    else Received(Frame(s[5], U32At(s, 8), payload, U16At(s, 6)))
  }

  /** Every reachable state: a prefix of the magic, or the magic and more; with a complete and
      accepted header, short of its total. So never 212 bytes are held. */
  predicate Sound(p: Parser) {
    (if |p.bytes| < 4 then p.bytes <= MAGIC else MAGIC <= p.bytes) &&
    (|p.bytes| < HEADER_SIZE ==> p.expected == 0) &&
    (|p.bytes| >= HEADER_SIZE ==>
      CheckHeader(p.bytes) == Incomplete && p.expected == Total(p.bytes) && |p.bytes| < p.expected)
  }

  function Feed(p: Parser, b: byte): (Parser, Result)
    requires Sound(p)
  {
    if |p.bytes| < 4 && b != MAGIC[|p.bytes|] then
      (if b == MAGIC[0] then Parser([b], 0) else HUNTING, Incomplete)
    else
      var s := p.bytes + [b];
      if |s| < HEADER_SIZE then (Parser(s, 0), Incomplete)
      else
        var checked := if |s| == HEADER_SIZE then CheckHeader(s) else Incomplete;
        if checked != Incomplete then (HUNTING, checked)
        else
          HeaderStays(p.bytes, s);
          if |s| < Total(s) then (Parser(s, Total(s)), Incomplete) else (HUNTING, Judge(s))
  }

  /** The header's fields do not change while the payload arrives. */
  lemma HeaderStays(s: seq<byte>, t: seq<byte>)
    requires s <= t
    ensures |s| >= HEADER_SIZE ==> Total(t) == Total(s) && CheckHeader(t) == CheckHeader(s)
  {
    hide U16At, U32At;
    if |s| >= HEADER_SIZE {
      WordsOfPrefix(t, s, 6);
      WordsOfPrefix(t, s, 12);
    }
  }

  lemma FeedSound(p: Parser, b: byte)
    requires Sound(p)
    ensures Sound(Feed(p, b).0) && |p.bytes| < 212
  {
    hide U16At, U32At;
    HeaderStays(p.bytes, p.bytes + [b]);
  }

  function FeedAll(p: Parser, s: seq<byte>): (Parser, seq<Result>)
    requires Sound(p)
    decreases |s|
  {
    if s == [] then (p, [])
    else
      FeedSound(p, s[0]);
      var (q, r) := Feed(p, s[0]);
      var (end, rs) := FeedAll(q, s[1..]);
      (end, [r] + rs)
  }

  // ---------------------------------------------------------------- round trip

  /** A complete candidate whose header the parser lets through. */
  predicate Candidate(e: seq<byte>) {
    HEADER_SIZE <= |e| == Total(e) && MAGIC <= e && CheckHeader(e) == Incomplete
  }

  function Verdict(e: seq<byte>): Result
    requires Candidate(e)
  {
    Judge(e)
  }

  function Progress(e: seq<byte>, k: nat): (p: Parser)
    requires Candidate(e) && k < |e|
    ensures Sound(p)
  {
    HeaderStays(e[..k], e);
    Parser(e[..k], if k < HEADER_SIZE then 0 else Total(e))
  }

  lemma AcceptableReads(f: Frame)
    requires Acceptable(f)
    ensures var e := EncodeFrame(f);
            |e| >= HEADER_SIZE + CRC_SIZE && Candidate(e) && Verdict(e) == Received(f)
  {
    EncodedReads(f);
    hide EncodeFrame, U16At, U32At, Crc32.Checksum;
  }

  /** One byte of a candidate. */
  lemma FeedProgress(e: seq<byte>, k: nat)
    requires Candidate(e) && k < |e|
    ensures Feed(Progress(e, k), e[k]) ==
              if k + 1 < |e| then (Progress(e, k + 1), Incomplete) else (HUNTING, Verdict(e))
  {
    assert e[..k] + [e[k]] == e[..k + 1];
    HeaderStays(e[..k + 1], e);
    hide Judge, CheckHeader, U16At, U32At;
    if k + 1 == |e| {
      assert e[..k + 1] == e;
    }
  }

  function Quiet(n: nat): seq<Result> {
    seq(n, _ => Incomplete)
  }

  lemma FeedAllFirst(p: Parser, s: seq<byte>)
    requires Sound(p) && s != []
    ensures var (q, r) := Feed(p, s[0]);
            Sound(q) && FeedAll(p, s) == (FeedAll(q, s[1..]).0, [r] + FeedAll(q, s[1..]).1)
  {
    FeedSound(p, s[0]);
    hide Feed, Sound;
  }

  lemma NothingFed(p: Parser, s: seq<byte>)
    requires Sound(p) && |s| == 0
    ensures FeedAll(p, s) == (p, [])
  {
  }

  lemma QuietFirst(n: nat, last: Result)
    ensures [Incomplete] + (Quiet(n) + [last]) == Quiet(n + 1) + [last]
    ensures [last] == Quiet(0) + [last]
  {
  }

  lemma {:induction false} FeedRest(e: seq<byte>, k: nat)
    requires Candidate(e) && k < |e|
    ensures FeedAll(Progress(e, k), e[k..]) == (HUNTING, Quiet(|e| - 1 - k) + [Verdict(e)])
    decreases |e| - k
  {
    hide *;
    FeedProgress(e, k);
    FeedAllFirst(Progress(e, k), e[k..]);
    assert e[k..][0] == e[k] && e[k..][1..] == e[k + 1..];
    if k + 1 < |e| {
      FeedRest(e, k + 1);
      var n: nat := |e| - 2 - k;
      assert |e| - 1 - (k + 1) == n && |e| - 1 - k == n + 1;
      QuietFirst(n, Verdict(e));
    } else {
      assert |e| - 1 - k == 0;
      NothingFed(HUNTING, e[k + 1..]);
      QuietFirst(0, Verdict(e));
      assert [Verdict(e)] + [] == [Verdict(e)];
    }
  }

  /** From a fresh parser every acceptable frame is silent until its last byte, and then comes
      out with the fields it was encoded from. */
  lemma RoundTrip(f: Frame)
    requires Acceptable(f)
    ensures var e := EncodeFrame(f); FeedAll(HUNTING, e) == (HUNTING, Quiet(|e| - 1) + [Received(f)])
  {
    AcceptableReads(f);
    var e := EncodeFrame(f);
    hide EncodeFrame, Verdict, Acceptable, Candidate, Feed;
    FeedRest(e, 0);
    assert e[0..] == e && e[..0] == [];
  }

  // ---------------------------------------------------------------- only encodings come out

  predicate EndsWith(s: seq<byte>, t: seq<byte>) {
    |t| <= |s| && s[|s| - |t|..] == t
  }

  /** A received frame is acceptable, and the candidate's bytes are exactly its encoding. */
  lemma ReceivedIsEncoded(p: Parser, b: byte)
    requires Sound(p)
    ensures var r := Feed(p, b).1;
            r.Received? ==> Acceptable(r.frame) && EncodeFrame(r.frame) == p.bytes + [b]
  {
    var s := p.bytes + [b];
    HeaderStays(p.bytes, s);
    hide U16At, U32At, EncodeFrame, Crc32.Checksum, PayloadRule, LengthRule;
    if Feed(p, b).1.Received? {
      assert Candidate(s) && Verdict(s) == Feed(p, b).1;
      JudgedIsEncoded(s);
    }
  }

  lemma JudgedIsEncoded(s: seq<byte>)
    requires Candidate(s)
    ensures var r := Verdict(s); r.Received? ==> Acceptable(r.frame) && EncodeFrame(r.frame) == s
  {
    hide U16At, U32At, EncodeFrame, Crc32.Checksum, PayloadRule, LengthRule;
    if Judge(s).Received? {
      LengthRuleBounds(s[5], U32At(s, 12));
      ReadsBack(s);
    }
  }

  lemma LengthRuleBounds(t: byte, n: nat)
    ensures LengthRule(t, n) ==> n <= MAX_PAYLOAD
  {
  }

  /** The candidate is always the last bytes fed. */
  lemma CandidateIsTail(fed: seq<byte>, p: Parser, b: byte)
    requires Sound(p) && EndsWith(fed, p.bytes)
    ensures EndsWith(fed + [b], Feed(p, b).0.bytes) && EndsWith(fed + [b], p.bytes + [b])
  {
    hide CheckHeader, Judge, Total;
    assert (fed + [b])[|fed| - |p.bytes|..] == p.bytes + [b];
  }

  /** Every frame that comes out was the last thing on the wire, byte for byte: its canonical
      encoding ends at the byte that completed it. */
  lemma {:induction false} EmittedWasSent(fed: seq<byte>, p: Parser, s: seq<byte>, i: nat)
    requires Sound(p) && EndsWith(fed, p.bytes) && i < |s|
    ensures |FeedAll(p, s).1| == |s|
    ensures var r := FeedAll(p, s).1[i];
            r.Received? ==> Acceptable(r.frame) && EndsWith(fed + s[..i + 1], EncodeFrame(r.frame))
    decreases |s|
  {
    var (q, r) := Feed(p, s[0]);
    FeedAllFirst(p, s);
    CandidateIsTail(fed, p, s[0]);
    ReceivedIsEncoded(p, s[0]);
    hide *;
    assert s[..1] == [s[0]];
    if |s| == 1 {
      NothingFed(q, s[1..]);
    } else {
      EmittedWasSent(fed + [s[0]], q, s[1..], if i == 0 then 0 else i - 1);
      if i > 0 {
        assert (fed + [s[0]]) + s[1..][..i] == fed + s[..i + 1];
      }
    }
  }

  // ---------------------------------------------------------------- finding the magic

  /** The count of a hunting parser after one more byte. */
  function NextCount(c: nat, b: byte): nat
    requires c <= 3
  {
    if b == MAGIC[c] then c + 1 else if b == MAGIC[0] then 1 else 0
  }

  lemma HuntMoves(c: nat, b: byte)
    requires c <= 3
    ensures Sound(Parser(MAGIC[..c], 0)) && NextCount(c, b) <= 4
    ensures Feed(Parser(MAGIC[..c], 0), b) == (Parser(MAGIC[..NextCount(c, b)], 0), Incomplete)
  {
    assert MAGIC[..c] + [MAGIC[c]] == MAGIC[..c + 1];
    assert MAGIC[..1] == [MAGIC[0]] && MAGIC[..0] == [];
  }

  /** The magic's letters differ, so only one of its prefixes can end a string. */
  lemma OnlyTail(s: seq<byte>, c: nat)
    requires LongestTail(s, c)
    ensures c <= 3 && forall k :: 1 <= k <= 3 ==> (EndsInMagic(s, k) <==> k == c)
  {
    LastLetter(s, c);
    LastLetter(s, 1);
    LastLetter(s, 2);
    hide EndsInMagic;
  }

  lemma LastLetter(s: seq<byte>, k: nat)
    ensures EndsInMagic(s, k) && k > 0 ==> s != [] && s[|s| - 1] == MAGIC[k - 1]
  {
    if EndsInMagic(s, k) && k > 0 {
      assert s[|s| - k..][k - 1] == MAGIC[..k][k - 1];
    }
  }

  /** The count is the longest tail that could begin a magic, and 4 exactly when one ends here. */
  lemma HuntTail(fed: seq<byte>, c: nat, b: byte)
    requires LongestTail(fed, c)
    ensures c <= 3 && NextCount(c, b) <= 4 && EndsInMagic(fed + [b], NextCount(c, b))
    ensures forall k :: NextCount(c, b) < k <= 4 ==> !EndsInMagic(fed + [b], k)
  {
    hide EndsInMagic, LongestTail;
    var t := fed + [b];
    OnlyTail(fed, c);
    TailZero(fed);
    TailZero(t);
    TailGrows(fed, b, 1);
    TailGrows(fed, b, 2);
    TailGrows(fed, b, 3);
    TailGrows(fed, b, 4);
    var e1, e2, e3 := EndsInMagic(fed, 1), EndsInMagic(fed, 2), EndsInMagic(fed, 3);
    var t1, t2, t3, t4 := EndsInMagic(t, 1), EndsInMagic(t, 2), EndsInMagic(t, 3), EndsInMagic(t, 4);
    HuntTable(c, b, e1, e2, e3, t1, t2, t3, t4);
    hide *;
    forall k | NextCount(c, b) < k <= 4 ensures !EndsInMagic(t, k) {
      assert k == 1 || k == 2 || k == 3 || k == 4;
    }
  }

  /** Which tails the next byte makes, by cases on the letter. */
  lemma HuntTable(c: nat, b: byte, e1: bool, e2: bool, e3: bool, t1: bool, t2: bool, t3: bool, t4: bool)
    requires c <= 3 && (e1 <==> c == 1) && (e2 <==> c == 2) && (e3 <==> c == 3)
    requires (t1 <==> b == MAGIC[0]) && (t2 <==> b == MAGIC[1] && e1) && (t3 <==> b == MAGIC[2] && e2) &&
             (t4 <==> b == MAGIC[3] && e3)
    ensures var n := NextCount(c, b);
            0 <= n <= 4 && (n < 1 ==> !t1) && (n < 2 ==> !t2) && (n < 3 ==> !t3) && (n < 4 ==> !t4) &&
            (n == 1 ==> t1) && (n == 2 ==> t2) && (n == 3 ==> t3) && (n == 4 ==> t4)
  {
  }

  lemma TailZero(s: seq<byte>)
    ensures EndsInMagic(s, 0)
  {
  }

  lemma TailIsMagic(s: seq<byte>)
    requires EndsInMagic(s, 4)
    ensures |s| >= 4 && MagicAt(s, |s| - 4)
  {
  }

  lemma TailGrows(fed: seq<byte>, b: byte, k: nat)
    requires 1 <= k <= 4
    ensures EndsInMagic(fed + [b], k) <==> b == MAGIC[k - 1] && EndsInMagic(fed, k - 1)
  {
    var t := fed + [b];
    if k <= |t| {
      assert t[|t| - k..] == fed[|fed| - (k - 1)..] + [b];
      assert MAGIC[..k] == MAGIC[..k - 1] + [MAGIC[k - 1]];
    }
  }

  lemma NotCompleted(fed: seq<byte>, s: seq<byte>)
    requires s != [] && MagicFree(fed + s, |fed + s|)
    ensures !EndsInMagic(fed + [s[0]], 4)
  {
    var t := fed + [s[0]];
    assert t + s[1..] == fed + s;
    if EndsInMagic(t, 4) {
      TailIsMagic(t);
      MagicStays(t, s[1..], |t| - 4);
      assert false;
    }
  }

  /** While no magic has been completed the parser is silent and remembers just the tail that
      could still become one. */
  lemma {:induction false} Hunt(fed: seq<byte>, c: nat, s: seq<byte>)
    requires LongestTail(fed, c) && MagicFree(fed + s, |fed + s|)
    ensures Sound(Parser(MAGIC[..c], 0))
    ensures var (q, rs) := FeedAll(Parser(MAGIC[..c], 0), s);
            |q.bytes| <= 3 && q == Parser(MAGIC[..|q.bytes|], 0) && LongestTail(fed + s, |q.bytes|) && rs == Quiet(|s|)
    decreases |s|
  {
    var p := Parser(MAGIC[..c], 0);
    if s == [] {
      assert fed + s == fed;
      HuntMoves(c, 0);
    } else {
      var n := NextCount(c, s[0]);
      HuntMoves(c, s[0]);
      HuntTail(fed, c, s[0]);
      FeedAllFirst(p, s);
      assert (fed + [s[0]]) + s[1..] == fed + s;
      NotCompleted(fed, s);
      assert LongestTail(fed + [s[0]], n);
      Hunt(fed + [s[0]], n, s[1..]);
      assert Quiet(|s|) == [Incomplete] + Quiet(|s| - 1);
      assert |MAGIC[..n]| == n;
      hide *;
    }
  }

  lemma MagicStays(s: seq<byte>, t: seq<byte>, i: nat)
    requires MagicAt(s, i)
    ensures MagicAt(s + t, i)
  {
    assert (s + t)[i..i + 4] == s[i..i + 4];
  }

  lemma Regroup(a: seq<Result>, b: seq<Result>, c: seq<Result>)
    ensures a + (b + c) == (a + b) + c
  {
  }

  lemma {:induction false} FeedAllConcat(p: Parser, s: seq<byte>, t: seq<byte>)
    requires Sound(p)
    ensures var (q, rs) := FeedAll(p, s); Sound(q)
    ensures var (q, rs) := FeedAll(p, s);
            FeedAll(p, s + t) == (FeedAll(q, t).0, rs + FeedAll(q, t).1)
    decreases |s|
  {
    if s == [] {
      assert s + t == t;
      NothingFed(p, s);
      assert [] + FeedAll(p, t).1 == FeedAll(p, t).1;
    } else {
      FeedAllFirst(p, s);
      FeedAllFirst(p, s + t);
      assert (s + t)[1..] == s[1..] + t && (s + t)[0] == s[0];
      FeedAllConcat(Feed(p, s[0]).0, s[1..], t);
      var (q, r) := Feed(p, s[0]);
      hide *;
      Regroup([r], FeedAll(q, s[1..]).1, FeedAll(FeedAll(q, s[1..]).0, t).1);
    }
  }

  lemma MagicFreeSoFar(g: seq<byte>, e: seq<byte>)
    requires MAGIC <= e && MagicFree(g + MAGIC, |g|)
    ensures MagicFree(g + e[..3], |g| + 3) && EndsInMagic(g + e[..3], 3)
  {
    var s := g + e[..3];
    assert e[..3] == MAGIC[..3];
    assert s[|s| - 3..] == MAGIC[..3];
    forall j | 0 <= j < |s| ensures !MagicAt(s, j) {
      if MagicAt(s, j) {
        assert g + MAGIC == s + MAGIC[3..];
        MagicStays(s, MAGIC[3..], j);
        assert false;
      }
    }
  }

  lemma QuietJoins(m: nat, n: nat, last: seq<Result>)
    ensures Quiet(m) + (Quiet(n) + last) == Quiet(m + n) + last
  {
  }

  lemma HuntedToThree(g: seq<byte>, e: seq<byte>)
    requires MAGIC <= e && MagicFree(g + MAGIC, |g|)
    ensures FeedAll(HUNTING, g + e[..3]) == (Parser(MAGIC[..3], 0), Quiet(|g| + 3))
  {
    hide FeedAll, Feed, MagicFree, EndsInMagic, LongestTail, CheckHeader, Total;
    var s := g + e[..3];
    MagicFreeSoFar(g, e);
    EmptyTail([]);
    assert [] + s == s && MAGIC[..0] == [];
    Hunt([], 0, s);
    OnlyTail(s, |FeedAll(HUNTING, s).0.bytes|);
  }

  lemma EmptyTail(s: seq<byte>)
    requires s == []
    ensures LongestTail(s, 0)
  {
  }

  lemma SplitAt(g: seq<byte>, e: seq<byte>, k: nat)
    requires k <= |e|
    ensures g + e == (g + e[..k]) + e[k..]
  {
  }

  lemma CandidateAfter(g: seq<byte>, e: seq<byte>)
    requires Candidate(e) && MagicFree(g + MAGIC, |g|)
    ensures FeedAll(HUNTING, g + e) == (HUNTING, Quiet(|g| + |e| - 1) + [Verdict(e)])
  {
    hide *;
    ProgressThree(e);
    HuntedToThree(g, e);
    FeedRest(e, 3);
    FeedAllConcat(HUNTING, g + e[..3], e[3..]);
    SplitAt(g, e, 3);
    QuietJoins(|g| + 3, |e| - 4, [Verdict(e)]);
  }

  lemma ProgressThree(e: seq<byte>)
    requires Candidate(e)
    ensures |e| > 4 && |MAGIC| == 4 && MAGIC <= e && Sound(HUNTING) && Progress(e, 3) == Parser(MAGIC[..3], 0)
  {
    assert e[..4] == MAGIC && e[..3] == e[..4][..3];
  }

  /** After any garbage in which no magic completes before the frame's own, the frame comes out
      and nothing before it does: the scan stops at the first occurrence. */
  lemma FoundAfterGarbage(g: seq<byte>, f: Frame)
    requires Acceptable(f) && MagicFree(g + MAGIC, |g|)
    ensures var e := EncodeFrame(f);
            FeedAll(HUNTING, g + e) == (HUNTING, Quiet(|g| + |e| - 1) + [Received(f)])
  {
    hide *;
    AcceptableFits(f);
    var e := EncodeFrame(f);
    AcceptableReads(f);
    CandidateAfter(g, e);
  }

  lemma AcceptableFits(f: Frame)
    requires Acceptable(f)
    ensures |f.payload| <= HOST_MAX_PAYLOAD && Sound(HUNTING)
  {
  }
}
