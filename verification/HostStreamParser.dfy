/** The incremental parser as the object it is: a buffer and a timer changed in a loop that
    jumps between magics, performing exactly the position-by-position scan. */
module HostStreamParser {
  import opened Bytes
  import opened Frame
  import opened Delivery
  import opened HostStream

  predicate MagicAt(s: seq<byte>, i: nat) {
    i + 4 <= |s| && s[i..i + 4] == MAGIC
  }

  predicate MagicFree(s: seq<byte>, n: nat) {
    forall j :: 0 <= j < n ==> !MagicAt(s, j)
  }

  predicate EndsInMagic(s: seq<byte>, k: nat) {
    k <= |s| && k <= 4 && s[|s| - k..] == MAGIC[..k]
  }

  /** The longest proper prefix of the magic that ends s. */
  predicate LongestTail(s: seq<byte>, length: nat) {
    length <= 3 && EndsInMagic(s, length) && forall k :: length < k <= 3 ==> !EndsInMagic(s, k)
  }

  /** bytearray.find(MAGIC). */
  method FindMagic(s: seq<byte>) returns (index: Option<nat>)
    ensures match index
            case Some(i) => MagicAt(s, i) && MagicFree(s, i)
            case None => MagicFree(s, |s|)
  {
    var i := 0;
    while i + 4 <= |s|
      invariant MagicFree(s, i)
    {
      if s[i..i + 4] == MAGIC {
        return Some(i);
      }
      i := i + 1;
    }
    return None;
  }

  /** The longest proper prefix of the magic that the bytes end with. */
  method MagicPrefixLength(s: seq<byte>) returns (length: nat)
    ensures LongestTail(s, length)
  {
    length := if |s| < 3 then |s| else 3;
    while length > 0
      invariant length <= 3 && length <= |s|
      invariant forall k :: length < k <= 3 ==> !EndsInMagic(s, k)
    {
      if s[|s| - length..] == MAGIC[..length] {
        return;
      }
      length := length - 1;
    }
  }

  // ---------------------------------------------------------------- the loop's steps are the scan's

  /** Before the first magic, and before the kept tail, every position is noise. */
  lemma NoiseUpTo(s: seq<byte>, n: nat)
    requires n <= |s| && MagicFree(s, n)
    ensures forall i :: 0 <= i < n && i + 4 <= |s| ==> At(s[i..]) == Skip(Noise)
  {
    forall i | 0 <= i < n && i + 4 <= |s| ensures At(s[i..]) == Skip(Noise) {
      assert s[i..][..4] == s[i..i + 4];
      assert !MagicAt(s, i);
    }
  }

  lemma JumpToMagic(s: seq<byte>, n: nat)
    requires MagicAt(s, n) && MagicFree(s, n)
    ensures Pieces(s) == NoisePieces(s[..n]) + Pieces(s[n..]) && Rest(s) == Rest(s[n..])
    ensures MAGIC <= s[n..] && (n > 0 ==> !(MAGIC <= s))
  {
    NoiseUpTo(s, n);
    NoiseSkipped(s, n);
    assert s[n..][..4] == s[n..n + 4];
    assert n > 0 ==> !MagicAt(s, 0);
  }

  lemma NoiseToTheEnd(s: seq<byte>, keep: nat, i: nat)
    requires MagicFree(s, |s|) && LongestTail(s, keep) && i + keep < |s|
    ensures At(s[i..]) == Skip(Noise)
  {
    assert !MagicAt(s, i);
    if i + 4 <= |s| {
      assert s[i..][..4] == s[i..i + 4];
    } else {
      assert !EndsInMagic(s, |s| - i);
      ShortPrefix(s[i..]);
    }
  }

  lemma ShortPrefix(s: seq<byte>)
    ensures s <= MAGIC ==> s == MAGIC[..|s|]
  {
  }

  lemma StaysPut(s: seq<byte>)
    requires Front(s) == Stay
    ensures Pieces(s) == [] && Rest(s) == s
  {
  }

  lemma TailWaits(s: seq<byte>, keep: nat)
    requires MagicFree(s, |s|) && LongestTail(s, keep)
    ensures Front(s[|s| - keep..]) == Stay
    ensures !(MAGIC <= s) && !(MAGIC <= s[|s| - keep..])
  {
    assert |s| >= 4 ==> !MagicAt(s, 0);
  }

  lemma NoMagicLeft(s: seq<byte>, keep: nat)
    requires MagicFree(s, |s|) && LongestTail(s, keep)
    ensures keep <= |s| && Pieces(s) == NoisePieces(s[..|s| - keep]) && Rest(s) == s[|s| - keep..]
    ensures !(MAGIC <= s) && !(MAGIC <= s[|s| - keep..])
  {
    var n: nat := |s| - keep;
    hide *;
    forall i | 0 <= i < n ensures At(s[i..]) == Skip(Noise) {
      NoiseToTheEnd(s, keep, i);
    }
    NoiseSkipped(s, n);
    TailWaits(s, keep);
    StaysPut(s[n..]);
  }

  /** A decided front, once its age is known not to matter, is taken and the rest scanned. */
  lemma Advance(s: seq<byte>, started: Option<int>, now: int)
    requires !Expired(s, started, now) && Front(s).Take?
    ensures var rest := s[Front(s).size..];
            Decided(s, started, now) == [Front(s).piece] + Decided(rest, None, now) &&
            Undecided(s, started, now) == Undecided(rest, None, now)
  {
    hide Front;
  }

  lemma AdvanceExpired(s: seq<byte>, started: Option<int>, now: int)
    requires Expired(s, started, now)
    ensures Decided(s, started, now) == [Lost(s[..1], Timeout)] + Decided(s[1..], None, now)
    ensures Undecided(s, started, now) == Undecided(s[1..], None, now)
  {
    hide Pieces, Rest;
  }

  lemma AdvanceNoise(s: seq<byte>, started: Option<int>, now: int, n: nat)
    requires 0 < n <= |s| && !(MAGIC <= s)
    requires Pieces(s) == NoisePieces(s[..n]) + Pieces(s[n..]) && Rest(s) == Rest(s[n..])
    ensures Decided(s, started, now) == NoisePieces(s[..n]) + Decided(s[n..], None, now)
    ensures Undecided(s, started, now) == Undecided(s[n..], None, now)
  {
    hide Pieces, Rest;
    assert |NoisePieces(s[..n])| == n;
    hide NoisePieces;
  }

  /** A new candidate's age starts at zero. */
  lemma StartTimer(s: seq<byte>, now: int)
    requires MAGIC <= s
    ensures Decided(s, None, now) == Decided(s, Some(now), now) && Undecided(s, None, now) == Undecided(s, Some(now), now)
  {
    hide Pieces, Rest;
  }

  lemma Stop(s: seq<byte>, started: Option<int>, now: int)
    requires !Expired(s, started, now) && Front(s) == Stay && MAGIC <= s && started.Some?
    ensures Decided(s, started, now) == [] && Undecided(s, started, now) == Parser(s, started)
  {
    hide Front;
  }

  lemma OneMore(done: seq<Piece>, piece: Piece)
    ensures Frames(done + [piece]) == Frames(done) + FrameOf(piece)
    ensures Tally(done + [piece]) == Plus(Tally(done), TallyOne(piece))
  {
    FramesConcat(done, [piece]);
    TallyConcat(done, [piece]);
    SinglePiece([piece]);
    hide *;
  }

  lemma MoreNoise(done: seq<Piece>, s: seq<byte>)
    ensures Frames(done + NoisePieces(s)) == Frames(done)
    ensures Tally(done + NoisePieces(s)) == Plus(Tally(done), NOTHING.(resyncDiscarded := |s|))
  {
    NoiseTally(s);
    FramesConcat(done, NoisePieces(s));
    TallyConcat(done, NoisePieces(s));
    hide *;
  }

  // ---------------------------------------------------------------- the object

  class HostStreamParser {
    var buffer: seq<byte>
    var started: Option<int>
    var diagnostics: Diagnostics

    function State(): Parser
      reads this
    {
      Parser(buffer, started)
    }

    constructor ()
      ensures State() == FRESH && diagnostics == NOTHING
    {
      buffer, started, diagnostics := [], None, NOTHING;
    }

    method DiscardCandidateByte()
      requires buffer != []
      modifies this
      ensures State() == Parser(old(buffer)[1..], None)
      ensures diagnostics == old(diagnostics).(resyncDiscarded := old(diagnostics.resyncDiscarded) + 1)
    {
      buffer := buffer[1..];
      started := None;
      diagnostics := diagnostics.(resyncDiscarded := diagnostics.resyncDiscarded + 1);
    }

    /** Move to the first magic, or keep only its possible beginning. */
    method SeekMagic() returns (found: bool)
      modifies this
      ensures var s := old(buffer);
              exists n: nat :: n <= |s| && Sought(s, old(started), n, found) &&
                State() == Parser(s[n..], if found && n == 0 then old(started) else None) &&
                diagnostics == Plus(old(diagnostics), NOTHING.(resyncDiscarded := n))
    {
      var index := FindMagic(buffer);
      if index.None? {
        var keep := MagicPrefixLength(buffer);
        NoMagicLeft(buffer, keep);
        var discard := |buffer| - keep;
        assert Sought(buffer, started, discard, false);
        diagnostics := diagnostics.(resyncDiscarded := diagnostics.resyncDiscarded + discard);
        if discard > 0 {
          buffer := buffer[discard..];
        }
        started := None;
        return false;
      }
      var n := index.value;
      JumpToMagic(buffer, n);
      assert Sought(buffer, started, n, true);
      if n > 0 {
        diagnostics := diagnostics.(resyncDiscarded := diagnostics.resyncDiscarded + n);
        buffer := buffer[n..];
        started := None;
      }
      return true;
    }
  
    /** One pass over the candidate at the front: too old, undecided, refused or accepted. */
    method ConsiderCandidate(now: int) returns (frame: Option<Frame>, progress: bool)
      requires MAGIC <= buffer
      modifies this
      ensures progress == Candidate(old(buffer), old(started), now).Take?
      ensures !progress ==>
                frame == None && diagnostics == old(diagnostics) &&
                State() == Parser(old(buffer), if old(started).None? then Some(now) else old(started))
      ensures progress ==>
                var Take(piece, size) := Candidate(old(buffer), old(started), now);
                State() == Parser(old(buffer)[size..], None) &&
                diagnostics == Plus(old(diagnostics), TallyOne(piece)) &&
                frame == (if piece.Whole? then Some(piece.frame) else None)
    {
      hide U16At, U32At, DecodeFrame, FlagsValid, LengthValid, IsMessageType;
      assert buffer[..4] == MAGIC;
      frame, progress := None, true;
      if started.None? {
        started := Some(now);
      } else if now - started.value > CANDIDATE_TIMEOUT_MS {
        diagnostics := diagnostics.(incompleteTimeout := diagnostics.incompleteTimeout + 1);
        DiscardCandidateByte();
        return;
      }
      if |buffer| < HEADER_SIZE {
        return None, false;
      }
      var version, rawType, rawFlags, length := buffer[4], buffer[5], U16At(buffer, 6), U32At(buffer, 12);
      if length > HOST_MAX_PAYLOAD {
        diagnostics := diagnostics.(invalidLength := diagnostics.invalidLength + 1);
        DiscardCandidateByte();
        return;
      }
      if version != VERSION || rawFlags >= 8 || !IsMessageType(rawType) {
        diagnostics := diagnostics.(invalidHeader := diagnostics.invalidHeader + 1);
        DiscardCandidateByte();
        return;
      }
      if !FlagsValid(rawType, rawFlags) {
        diagnostics := diagnostics.(invalidHeader := diagnostics.invalidHeader + 1);
        DiscardCandidateByte();
        return;
      }
      if !LengthValid(rawType, rawFlags, length) {
        diagnostics := diagnostics.(invalidLength := diagnostics.invalidLength + 1);
        DiscardCandidateByte();
        return;
      }
      var frameSize := HEADER_SIZE + length + CRC_SIZE;
      if |buffer| < frameSize {
        return None, false;
      }
      OnlyChecksumFails(buffer);
      var decoded := DecodeFrame(buffer[..frameSize]);
      if decoded.BadChecksum? {
        diagnostics := diagnostics.(crcError := diagnostics.crcError + 1);
        DiscardCandidateByte();
        return;
      }
      frame := Some(decoded.frame);
      buffer := buffer[frameSize..];
      started := None;
    }

    /** feed: the frames, the counters and the state a scan of buffer and data gives. */
    method Feed(data: seq<byte>, now: int) returns (frames: seq<Frame>)
      modifies this
      ensures frames == Frames(FedPieces(old(State()), data, now))
      ensures State() == Fed(old(State()), data, now)
      ensures diagnostics == Plus(old(diagnostics), Tally(FedPieces(old(State()), data, now)))
    {
      ghost var all, last := FedPieces(State(), data, now), Fed(State(), data, now);
      ghost var before := diagnostics;
      ghost var done: seq<Piece> := [];
      hide Frames, Tally, Decided, Undecided, Sought, Candidate, Plus, NoisePieces;
      buffer := buffer + data;
      if |buffer| > RX_BUFFER_LIMIT {
        diagnostics := diagnostics.(
          bufferLimit := diagnostics.bufferLimit + 1,
          resyncDiscarded := diagnostics.resyncDiscarded + (|buffer| - 3));
        done := [Lost(buffer[..|buffer| - 3], Overflow)];
        OverflowCounted(before, buffer);
        buffer := buffer[|buffer| - 3..];
      } else {
        NothingCounted(before);
        assert [] + Decided(buffer, started, now) == Decided(buffer, started, now);
      }
      frames := [];
      while true
        invariant done + Decided(buffer, started, now) == all && Undecided(buffer, started, now) == last
        invariant frames == Frames(done) && diagnostics == Plus(before, Tally(done))
        decreases |buffer|
      {
        ghost var s, timer, counts := buffer, started, diagnostics;
        var found := SeekMagic();
        ghost var n: nat :| n <= |s| && Sought(s, timer, n, found) &&
          State() == Parser(s[n..], if found && n == 0 then timer else None) &&
          diagnostics == Plus(counts, NOTHING.(resyncDiscarded := n));
        SoughtStep(s, timer, now, n, found);
        MoreNoise(done, s[..n]);
        PlusAssociates(before, Tally(done), NOTHING.(resyncDiscarded := n));
        Shift(done, NoisePieces(s[..n]), Decided(buffer, started, now));
        done := done + NoisePieces(s[..n]);
        if !found {
          assert done + [] == done;
          break;
        }
        ghost var c, age := buffer, started;
        var frame, progress := ConsiderCandidate(now);
        CandidateStep(c, age, now);
        if !progress {
          assert done + [] == done;
          break;
        }
        ghost var piece := Candidate(c, age, now).piece;
        OneMore(done, piece);
        PlusAssociates(before, Tally(done), TallyOne(piece));
        Shift(done, [piece], Decided(buffer, started, now));
        done := done + [piece];
        if frame.Some? {
          frames := frames + [frame.value];
        }
      }
    }
  }

  /** The front of the buffer, with an expired candidate given up first. */
  function Candidate(s: seq<byte>, started: Option<int>, now: int): Move {
    if Expired(s, started, now) then Take(Lost(s[..1], Timeout), 1) else Front(s)
  }

  /** The first n bytes are noise; what follows starts with the magic, or is all there is to wait for. */
  predicate Sought(s: seq<byte>, started: Option<int>, n: nat, found: bool)
    requires n <= |s|
  {
    Pieces(s) == NoisePieces(s[..n]) + Pieces(s[n..]) && Rest(s) == Rest(s[n..]) &&
    (n > 0 ==> !(MAGIC <= s)) && (found <==> MAGIC <= s[n..]) &&
    (!found ==> Front(s[n..]) == Stay && !(MAGIC <= s))
  }

  lemma SoughtStep(s: seq<byte>, started: Option<int>, now: int, n: nat, found: bool)
    requires n <= |s| && Sought(s, started, n, found)
    ensures var later := if found && n == 0 then started else None;
            Decided(s, started, now) == NoisePieces(s[..n]) + Decided(s[n..], later, now) &&
            Undecided(s, started, now) == Undecided(s[n..], later, now) &&
            (found ==> MAGIC <= s[n..]) &&
            (!found ==> Decided(s[n..], None, now) == [] && Undecided(s[n..], None, now) == Parser(s[n..], None))
  {
    if n > 0 {
      AdvanceNoise(s, started, now, n);
    } else {
      assert s[n..] == s && NoisePieces(s[..n]) == [];
      if !found {
        assert !Expired(s, started, now);
      }
    }
    if !found {
      StaysPut(s[n..]);
    }
    hide Pieces, Rest, NoisePieces;
  }

  lemma CandidateStep(s: seq<byte>, started: Option<int>, now: int)
    requires MAGIC <= s
    ensures match Candidate(s, started, now)
            case Stay =>
              Decided(s, started, now) == [] &&
              Undecided(s, started, now) == Parser(s, if started.None? then Some(now) else started)
            case Take(piece, size) =>
              0 < size <= |s| &&
              Decided(s, started, now) == [piece] + Decided(s[size..], None, now) &&
              Undecided(s, started, now) == Undecided(s[size..], None, now)
  {
    if Expired(s, started, now) {
      AdvanceExpired(s, started, now);
    } else if Front(s).Take? {
      Advance(s, started, now);
    } else {
      StaysPut(s);
      hide *;
      StartTimer(s, now);
      Stop(s, if started.None? then Some(now) else started, now);
    }
  }

  lemma Shift(a: seq<Piece>, b: seq<Piece>, c: seq<Piece>)
    ensures a + (b + c) == (a + b) + c
  {
  }

  lemma OverflowCounted(before: Diagnostics, s: seq<byte>)
    requires |s| > 3
    ensures var done := [Lost(s[..|s| - 3], Overflow)];
            Frames(done) == [] &&
            Plus(before, Tally(done)) == before.(
              bufferLimit := before.bufferLimit + 1, resyncDiscarded := before.resyncDiscarded + (|s| - 3))
  {
    var done := [Lost(s[..|s| - 3], Overflow)];
    SinglePiece(done);
    hide Tally, Frames;
  }

  lemma NothingCounted(before: Diagnostics)
    ensures Frames([]) == [] && Plus(before, Tally([])) == before
  {
  }
}
