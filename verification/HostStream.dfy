/** The resynchronising host parser: a bounded buffer from which frames are taken, and one
    byte is given up whenever the candidate at its front cannot be a frame. */
module HostStream {
  import opened Bytes
  import opened Frame
  import opened Delivery

  const RX_BUFFER_LIMIT := 16424
  const CANDIDATE_TIMEOUT_MS := 2000
  const LONGEST_FRAME := 4728

  datatype Reason = Noise | InvalidLength | InvalidHeader | CrcError | Timeout | Overflow

  /** What becomes of received bytes: a whole frame, or bytes given up and why. */
  datatype Piece = Whole(frame: Frame) | Lost(bytes: seq<byte>, reason: Reason)

  // ---------------------------------------------------------------- the position-by-position scan

  datatype Look = Wait | Found(frame: Frame, size: nat) | Skip(reason: Reason)

  /** What a 16-byte header promises; the parser decides before it buffers the payload. */
  predicate HeaderPermitted(s: seq<byte>)
    requires |s| >= HEADER_SIZE
  {
    s[4] == VERSION && U16At(s, 6) < 8 && IsMessageType(s[5]) && FlagsValid(s[5], U16At(s, 6))
  }

  function FrameSize(s: seq<byte>): nat
    requires |s| >= HEADER_SIZE
  {
    HEADER_SIZE + U32At(s, 12) + CRC_SIZE
  }

  /** What the bytes at the front are, with no knowledge of what follows. */
  function At(s: seq<byte>): (look: Look)
    ensures look.Found? ==> 0 < look.size <= |s|
    ensures look.Wait? ==> |s| < LONGEST_FRAME
    ensures look.Skip? ==> s != []
  {
    if |s| < 4 then (if s <= MAGIC then Wait else Skip(Noise))
    else if s[..4] != MAGIC then Skip(Noise)
    else if |s| < HEADER_SIZE then Wait
    else if U32At(s, 12) > HOST_MAX_PAYLOAD then Skip(InvalidLength)
    else if !HeaderPermitted(s) then Skip(InvalidHeader)
    else if !LengthValid(s[5], U16At(s, 6), U32At(s, 12)) then Skip(InvalidLength)
    else if |s| < FrameSize(s) then Wait
    else
      match DecodeFrame(s[..FrameSize(s)])
      case Accepted(frame) => Found(frame, FrameSize(s))
      case _ => Skip(CrcError)
  }

  datatype Move = Stay | Take(piece: Piece, size: nat)

  /** Take the frame that starts here, or give up one byte, or wait. */
  function Front(s: seq<byte>): (move: Move)
    ensures move.Take? ==> 0 < move.size <= |s|
  {
    match At(s)
    case Wait => Stay
    case Found(frame, size) => Take(Whole(frame), size)
    case Skip(reason) => Take(Lost(s[..1], reason), 1)
  }

  /** The scan, left to right. */
  function Pieces(s: seq<byte>): seq<Piece>
    decreases |s|
  {
    match Front(s)
    case Stay => []
    case Take(piece, size) => [piece] + Pieces(s[size..])
  }

  /** The bytes the scan is still waiting to decide. */
  function Rest(s: seq<byte>): (rest: seq<byte>)
    ensures |rest| <= |s|
    decreases |s|
  {
    match Front(s)
    case Stay => s
    case Take(_, size) => Rest(s[size..])
  }

  // ---------------------------------------------------------------- what the pieces say

  function PieceBytes(piece: Piece): seq<byte> {
    match piece
    case Whole(frame) => if |frame.payload| <= HOST_MAX_PAYLOAD then EncodeFrame(frame) else []
    case Lost(bytes, _) => bytes
  }

  function Flatten(pieces: seq<Piece>): seq<byte> {
    if pieces == [] then [] else PieceBytes(pieces[0]) + Flatten(pieces[1..])
  }

  function Frames(pieces: seq<Piece>): seq<Frame> {
    if pieces == [] then [] else FrameOf(pieces[0]) + Frames(pieces[1..])
  }

  function FrameOf(piece: Piece): seq<Frame> {
    if piece.Whole? then [piece.frame] else []
  }

  datatype Diagnostics = Diagnostics(
    invalidHeader: nat, invalidLength: nat, crcError: nat,
    resyncDiscarded: nat, bufferLimit: nat, incompleteTimeout: nat)

  function Plus(a: Diagnostics, b: Diagnostics): Diagnostics {
    Diagnostics(
      a.invalidHeader + b.invalidHeader, a.invalidLength + b.invalidLength, a.crcError + b.crcError,
      a.resyncDiscarded + b.resyncDiscarded, a.bufferLimit + b.bufferLimit,
      a.incompleteTimeout + b.incompleteTimeout)
  }

  const NOTHING := Diagnostics(0, 0, 0, 0, 0, 0)

  function Tick(reason: Reason, r: Reason): nat {
    if reason == r then 1 else 0
  }

  function TallyOne(piece: Piece): Diagnostics {
    match piece
    case Whole(_) => NOTHING
    case Lost(bytes, r) =>
      Diagnostics(Tick(InvalidHeader, r), Tick(InvalidLength, r), Tick(CrcError, r), |bytes|,
                  Tick(Overflow, r), Tick(Timeout, r))
  }

  function Tally(pieces: seq<Piece>): Diagnostics {
    if pieces == [] then NOTHING else Plus(TallyOne(pieces[0]), Tally(pieces[1..]))
  }

  lemma {:induction false} FramesConcat(a: seq<Piece>, b: seq<Piece>)
    ensures Frames(a + b) == Frames(a) + Frames(b)
  {
    if a == [] {
      assert a + b == b;
    } else {
      hide FrameOf;
      assert (a + b)[1..] == a[1..] + b && (a + b)[0] == a[0];
      FramesConcat(a[1..], b);
    }
  }

  lemma PlusAssociates(a: Diagnostics, b: Diagnostics, c: Diagnostics)
    ensures Plus(Plus(a, b), c) == Plus(a, Plus(b, c)) && Plus(NOTHING, a) == a == Plus(a, NOTHING)
  {
  }

  lemma {:induction false} TallyConcat(a: seq<Piece>, b: seq<Piece>)
    ensures Tally(a + b) == Plus(Tally(a), Tally(b))
  {
    if a == [] {
      assert a + b == b;
      PlusAssociates(Tally(b), NOTHING, NOTHING);
    } else {
      hide TallyOne, Plus;
      assert (a + b)[1..] == a[1..] + b && (a + b)[0] == a[0];
      TallyConcat(a[1..], b);
      PlusAssociates(TallyOne(a[0]), Tally(a[1..]), Tally(b));
    }
  }

  lemma NoPieces(pieces: seq<Piece>)
    requires |pieces| == 0
    ensures Tally(pieces) == NOTHING && Frames(pieces) == []
  {
  }

  lemma SinglePiece(pieces: seq<Piece>)
    requires |pieces| == 1
    ensures Tally(pieces) == TallyOne(pieces[0]) && Frames(pieces) == FrameOf(pieces[0])
  {
    NoPieces(pieces[1..]);
    PlusAssociates(TallyOne(pieces[0]), NOTHING, NOTHING);
    hide TallyOne, FrameOf, Plus;
  }

  lemma {:induction false} FlattenConcat(a: seq<Piece>, b: seq<Piece>)
    ensures Flatten(a + b) == Flatten(a) + Flatten(b)
  {
    hide PieceBytes;
    if a == [] {
      assert a + b == b;
    } else {
      assert (a + b)[1..] == a[1..] + b;
      FlattenConcat(a[1..], b);
    }
  }

  // ---------------------------------------------------------------- what a position can hold

  /** Once the header has passed, decode_frame can only fail on the checksum. */
  lemma OnlyChecksumFails(s: seq<byte>)
    requires |s| >= HEADER_SIZE && s[..4] == MAGIC && U32At(s, 12) <= HOST_MAX_PAYLOAD
    requires HeaderPermitted(s) && |s| >= FrameSize(s)
    ensures var d := DecodeFrame(s[..FrameSize(s)]); d.Accepted? || d.BadChecksum?
  {
    hide U16At, U32At;
    var c := s[..FrameSize(s)];
    WordsOfPrefix(s, c, 6);
    WordsOfPrefix(s, c, 12);
    assert c[..4] == s[..4];
  }

  /** A position holds a frame exactly when a permitted frame's encoding starts there. */
  lemma FoundMeansEncoded(s: seq<byte>)
    requires At(s).Found?
    ensures Permitted(At(s).frame) && |EncodeFrame(At(s).frame)| == At(s).size
    ensures EncodeFrame(At(s).frame) == s[..At(s).size]
  {
    hide U16At, U32At;
    var c := s[..FrameSize(s)];
    WordsOfPrefix(s, c, 6);
    WordsOfPrefix(s, c, 12);
    EncodeDecode(c);
  }

  lemma EncodedIsFound(f: Frame, t: seq<byte>)
    requires Permitted(f)
    ensures At(EncodeFrame(f) + t) == Found(f, |EncodeFrame(f)|)
  {
    hide Crc32.Checksum, U16At, U32At, Le16, Le32;
    var e := EncodeFrame(f);
    var head := Header(f.messageType, f.flags, f.sequence, |f.payload|);
    var s := e + t;
    HeaderReads(f.messageType, f.flags, f.sequence, |f.payload|);
    assert s[..HEADER_SIZE] == head && s[..4] == head[..4];
    WordsOfPrefix(s, head, 6);
    WordsOfPrefix(s, head, 12);
    DecodeEncode(f);
    assert s[..|e|] == e;
  }

  lemma FoundExactly(s: seq<byte>)
    ensures At(s).Found? <==> exists f :: Permitted(f) && EncodeFrame(f) <= s
  {
    if At(s).Found? {
      FoundMeansEncoded(s);
    }
    forall f | Permitted(f) && EncodeFrame(f) <= s ensures At(s).Found? {
      EncodedIsFound(f, s[|EncodeFrame(f)|..]);
      assert s == EncodeFrame(f) + s[|EncodeFrame(f)|..];
    }
  }

  lemma PrefixBegins(s: seq<byte>, t: seq<byte>)
    ensures s + t <= MAGIC ==> s <= MAGIC
    ensures |s| < 4 && |s + t| >= 4 && (s + t)[..4] == MAGIC ==> s <= MAGIC
  {
    if |s| < 4 && |s + t| >= 4 && (s + t)[..4] == MAGIC {
      assert s == (s + t)[..4][..|s|];
    } else if s + t <= MAGIC {
      assert s == (s + t)[..|s|] == MAGIC[..|s|];
    }
  }

  /** What has been decided at a position is not revised when more bytes arrive. */
  lemma AtIsStable(s: seq<byte>, t: seq<byte>)
    requires !At(s).Wait?
    ensures At(s + t) == At(s)
  {
    hide U16At, U32At, DecodeFrame;
    var u := s + t;
    if |s| < 4 {
      PrefixBegins(s, t);
    } else {
      assert u[..4] == s[..4];
      if |s| >= HEADER_SIZE {
        WordsOfPrefix(u, s, 6);
        WordsOfPrefix(u, s, 12);
        if |s| >= FrameSize(s) {
          assert u[..FrameSize(s)] == s[..FrameSize(s)];
        }
      }
    }
  }

  lemma FrontIsStable(s: seq<byte>, t: seq<byte>)
    ensures Front(s).Take? ==> Front(s + t) == Front(s)
  {
    hide At;
    if s != [] && !At(s).Wait? {
      AtIsStable(s, t);
      assert (s + t)[..1] == s[..1];
    }
  }

  lemma FrontBytes(s: seq<byte>)
    ensures Front(s).Take? ==> PieceBytes(Front(s).piece) == s[..Front(s).size]
  {
    hide At;
    if At(s).Found? {
      FoundMeansEncoded(s);
    }
  }

  // ---------------------------------------------------------------- chunking

  /** Scanning more bytes later is scanning them all at once. */
  lemma {:induction false} PiecesAppend(s: seq<byte>, t: seq<byte>)
    ensures Pieces(s + t) == Pieces(s) + Pieces(Rest(s) + t)
    ensures Rest(s + t) == Rest(Rest(s) + t)
    decreases |s|
  {
    hide Front;
    match Front(s)
    case Stay =>
    case Take(piece, size) =>
      FrontIsStable(s, t);
      assert (s + t)[size..] == s[size..] + t;
      PiecesAppend(s[size..], t);
  }

  lemma {:induction false} RestWaits(s: seq<byte>)
    ensures Front(Rest(s)) == Stay && |Rest(s)| < LONGEST_FRAME
    decreases |s|
  {
    hide At;
    match Front(s)
    case Stay =>
    case Take(_, size) => RestWaits(s[size..]);
  }

  /** Every byte scanned is in a frame, given up, or still waiting, in the order received. */
  lemma {:induction false} PiecesCover(s: seq<byte>)
    ensures Flatten(Pieces(s)) + Rest(s) == s
    decreases |s|
  {
    hide Front, PieceBytes;
    match Front(s)
    case Stay =>
    case Take(piece, size) =>
      PiecesCover(s[size..]);
      FrontBytes(s);
      assert Pieces(s)[1..] == Pieces(s[size..]);
      assert s == s[..size] + s[size..];
  }

  function NoisePieces(s: seq<byte>): seq<Piece> {
    seq(|s|, i requires 0 <= i < |s| => Lost([s[i]], Noise))
  }

  lemma NoiseStep(b: byte, s: seq<byte>)
    ensures NoisePieces([b] + s) == [Lost([b], Noise)] + NoisePieces(s)
  {
  }

  /** Every one of the first n positions is noise. */
  ghost predicate NoiseBefore(s: seq<byte>, n: nat)
    requires n <= |s|
  {
    forall i :: 0 <= i < n ==> At(s[i..]) == Skip(Noise)
  }

  lemma NoiseTail(s: seq<byte>, n: nat)
    requires 0 < n <= |s| && NoiseBefore(s, n)
    ensures NoiseBefore(s[1..], n - 1)
  {
    hide At;
    forall i | 0 <= i < n - 1 ensures At(s[1..][i..]) == Skip(Noise) {
      assert s[1..][i..] == s[i + 1..];
    }
  }

  lemma NoiseFront(s: seq<byte>, n: nat)
    requires 0 < n <= |s| && NoiseBefore(s, n)
    ensures Pieces(s) == [Lost([s[0]], Noise)] + Pieces(s[1..]) && Rest(s) == Rest(s[1..])
  {
    hide At;
    assert s[0..] == s;
    assert Front(s) == Take(Lost(s[..1], Noise), 1) && s[..1] == [s[0]];
  }

  lemma NoiseSplit(s: seq<byte>, n: nat, more: seq<Piece>)
    requires 0 < n <= |s|
    ensures [Lost([s[0]], Noise)] + (NoisePieces(s[1..][..n - 1]) + more) == NoisePieces(s[..n]) + more
    ensures s[1..][n - 1..] == s[n..]
  {
    assert s[1..][..n - 1] == s[1..n] && s[..n] == [s[0]] + s[1..n];
    NoiseStep(s[0], s[1..n]);
    hide NoisePieces;
  }

  /** The leap of find(MAGIC): a stretch of noise is given up byte by byte. */
  lemma {:induction false} NoiseSkipped(s: seq<byte>, n: nat)
    requires n <= |s| && NoiseBefore(s, n)
    ensures Pieces(s) == NoisePieces(s[..n]) + Pieces(s[n..])
    ensures Rest(s) == Rest(s[n..])
    decreases n
  {
    if n == 0 {
      assert s[n..] == s && NoisePieces(s[..n]) == [];
      hide At, Front, NoiseBefore;
    } else {
      hide *;
      NoiseTail(s, n);
      NoiseFront(s, n);
      NoiseSkipped(s[1..], n - 1);
      NoiseSplit(s, n, Pieces(s[n..]));
    }
  }

  lemma {:induction false} NoiseTally(s: seq<byte>)
    ensures Frames(NoisePieces(s)) == []
    ensures Tally(NoisePieces(s)) == NOTHING.(resyncDiscarded := |s|)
  {
    if s != [] {
      NoiseStep(s[0], s[1..]);
      assert s == [s[0]] + s[1..];
      NoiseTally(s[1..]);
      hide NoisePieces;
      assert NoisePieces(s)[1..] == NoisePieces(s[1..]);
    }
  }

  // ---------------------------------------------------------------- one call of feed

  /** The parser between calls: what it has buffered, and when the candidate at the front of
      the buffer was first seen. */
  datatype Parser = Parser(buffer: seq<byte>, started: Option<int>)

  predicate Expired(s: seq<byte>, started: Option<int>, now: int) {
    MAGIC <= s && started.Some? && now - started.value > CANDIDATE_TIMEOUT_MS
  }

  /** The scan with the age of the first candidate taken into account. */
  function Decided(s: seq<byte>, started: Option<int>, now: int): seq<Piece> {
    if Expired(s, started, now) then [Lost(s[..1], Timeout)] + Pieces(s[1..]) else Pieces(s)
  }

  function Undecided(s: seq<byte>, started: Option<int>, now: int): Parser {
    var rest := if Expired(s, started, now) then Rest(s[1..]) else Rest(s);
    Parser(rest,
           if !(MAGIC <= rest) then None
           else if Decided(s, started, now) == [] && started.Some? then started
           else Some(now))
  }

  /** An over-full buffer gives up all but its last three bytes at once. */
  function FedPieces(p: Parser, data: seq<byte>, now: int): seq<Piece> {
    var s := p.buffer + data;
    if |s| > RX_BUFFER_LIMIT then [Lost(s[..|s| - 3], Overflow)] + Decided(s[|s| - 3..], p.started, now)
    else Decided(s, p.started, now)
  }

  function Fed(p: Parser, data: seq<byte>, now: int): Parser {
    var s := p.buffer + data;
    Undecided(if |s| > RX_BUFFER_LIMIT then s[|s| - 3..] else s, p.started, now)
  }

  const FRESH := Parser([], None)

  /** Between calls the buffer holds only bytes that cannot be decided yet, and a candidate
      is timed exactly when its magic is complete. */
  predicate Settled(p: Parser) {
    Front(p.buffer) == Stay && |p.buffer| < LONGEST_FRAME && (p.started.Some? <==> MAGIC <= p.buffer)
  }

  lemma FedIsSettled(p: Parser, data: seq<byte>, now: int)
    ensures Settled(Fed(p, data, now))
  {
    var fed := p.buffer + data;
    var s := if |fed| > RX_BUFFER_LIMIT then fed[|fed| - 3..] else fed;
    RestWaits(s);
    if MAGIC <= s {
      RestWaits(s[1..]);
    }
  }

  lemma NothingDecided(s: seq<byte>)
    ensures Pieces(s) == [] ==> Rest(s) == s
  {
  }

  /** Deciding s now and the rest with b at the same instant is deciding s + b. */
  lemma ExpiredSplit(s: seq<byte>, started: Option<int>, b: seq<byte>, now: int)
    requires Expired(s, started, now)
    ensures var q := Undecided(s, started, now);
            Decided(s + b, started, now) == Decided(s, started, now) + Decided(q.buffer + b, q.started, now) &&
            Undecided(s + b, started, now) == Undecided(q.buffer + b, q.started, now)
  {
    hide Pieces, Rest;
    assert (s + b)[1..] == s[1..] + b && (s + b)[..1] == s[..1];
    PiecesAppend(s[1..], b);
  }

  lemma LiveSplit(s: seq<byte>, started: Option<int>, b: seq<byte>, now: int)
    requires !Expired(s, started, now) && (started.Some? ==> MAGIC <= s)
    ensures var q := Undecided(s, started, now);
            Decided(s + b, started, now) == Decided(s, started, now) + Decided(q.buffer + b, q.started, now) &&
            Undecided(s + b, started, now) == Undecided(q.buffer + b, q.started, now)
  {
    hide Pieces, Rest;
    PiecesAppend(s, b);
    NothingDecided(s);
  }

  /** One call split in two at the same instant gives the same pieces and leaves the same parser. */
  lemma ChunkingInvariant(p: Parser, a: seq<byte>, b: seq<byte>, now: int)
    requires Settled(p) && |p.buffer| + |a| + |b| <= RX_BUFFER_LIMIT
    ensures FedPieces(p, a + b, now) == FedPieces(p, a, now) + FedPieces(Fed(p, a, now), b, now)
    ensures Fed(p, a + b, now) == Fed(Fed(p, a, now), b, now)
  {
    var s := p.buffer + a;
    assert p.buffer + (a + b) == s + b;
    if Expired(s, p.started, now) {
      ExpiredSplit(s, p.started, b, now);
    } else {
      LiveSplit(s, p.started, b, now);
    }
    assert |Fed(p, a, now).buffer| <= |s|;
    hide Decided, Undecided, Front;
  }

  // ---------------------------------------------------------------- whole runs

  datatype Chunk = Chunk(data: seq<byte>, now: int)

  function Received(chunks: seq<Chunk>): seq<byte> {
    if chunks == [] then [] else chunks[0].data + Received(chunks[1..])
  }

  function RunPieces(p: Parser, chunks: seq<Chunk>): seq<Piece>
    decreases |chunks|
  {
    if chunks == [] then []
    else FedPieces(p, chunks[0].data, chunks[0].now) + RunPieces(Fed(p, chunks[0].data, chunks[0].now), chunks[1..])
  }

  function RunParser(p: Parser, chunks: seq<Chunk>): Parser
    decreases |chunks|
  {
    if chunks == [] then p else RunParser(Fed(p, chunks[0].data, chunks[0].now), chunks[1..])
  }

  function EncodedLength(frames: seq<Frame>): nat {
    if frames == [] then 0
    else (if |frames[0].payload| <= HOST_MAX_PAYLOAD then |EncodeFrame(frames[0])| else 0) + EncodedLength(frames[1..])
  }

  lemma {:induction false} FlattenLength(pieces: seq<Piece>)
    ensures |Flatten(pieces)| == EncodedLength(Frames(pieces)) + Tally(pieces).resyncDiscarded
  {
    if pieces != [] {
      FlattenLength(pieces[1..]);
      PieceLength(pieces[0], Frames(pieces[1..]));
      hide PieceBytes, FrameOf, EncodedLength;
    }
  }

  lemma PieceLength(piece: Piece, frames: seq<Frame>)
    ensures EncodedLength(FrameOf(piece) + frames) + TallyOne(piece).resyncDiscarded ==
              |PieceBytes(piece)| + EncodedLength(frames)
  {
    hide EncodeFrame;
    assert FrameOf(piece) + frames == if piece.Whole? then [piece.frame] + frames else frames;
  }

  lemma LostCovers(s: seq<byte>, n: nat, reason: Reason, started: Option<int>, now: int)
    requires n <= |s|
    ensures Flatten([Lost(s[..n], reason)] + Pieces(s[n..])) + Rest(s[n..]) == s
  {
    hide Pieces, Rest;
    PiecesCover(s[n..]);
    assert ([Lost(s[..n], reason)] + Pieces(s[n..]))[1..] == Pieces(s[n..]);
    assert s == s[..n] + s[n..];
  }

  lemma FeedConserves(p: Parser, data: seq<byte>, now: int)
    ensures Flatten(FedPieces(p, data, now)) + Fed(p, data, now).buffer == p.buffer + data
  {
    hide Flatten, Pieces, Rest;
    var s := p.buffer + data;
    if |s| > RX_BUFFER_LIMIT {
      LostCovers(s, |s| - 3, Overflow, p.started, now);
    } else if Expired(s, p.started, now) {
      LostCovers(s, 1, Timeout, p.started, now);
    } else {
      PiecesCover(s);
    }
  }

  lemma {:induction false} RunSettled(p: Parser, chunks: seq<Chunk>)
    requires Settled(p)
    ensures Settled(RunParser(p, chunks))
    decreases |chunks|
  {
    if chunks != [] {
      FedIsSettled(p, chunks[0].data, chunks[0].now);
      hide Fed, Settled;
      RunSettled(Fed(p, chunks[0].data, chunks[0].now), chunks[1..]);
    }
  }

  /** Conservation over any run: every byte ever fed, in the order it was fed, is in an emitted
      frame, was given up and counted, or is still in the buffer. */
  lemma {:induction false} RunConserves(p: Parser, chunks: seq<Chunk>)
    ensures Flatten(RunPieces(p, chunks)) + RunParser(p, chunks).buffer == p.buffer + Received(chunks)
    decreases |chunks|
  {
    hide Fed, FedPieces, Flatten;
    if chunks == [] {
      assert Flatten([]) == [] by { EmptyFlat(); }
    } else {
      var data, now := chunks[0].data, chunks[0].now;
      var q, now1 := Fed(p, data, now), FedPieces(p, data, now);
      FeedConserves(p, data, now);
      RunConserves(q, chunks[1..]);
      FlattenConcat(now1, RunPieces(q, chunks[1..]));
      Rejoin(Flatten(now1), Flatten(RunPieces(q, chunks[1..])), RunParser(p, chunks).buffer,
             q.buffer, p.buffer, data, Received(chunks[1..]));
    }
  }

  lemma EmptyFlat()
    ensures Flatten([]) == []
  {
  }

  lemma Rejoin(a: seq<byte>, b: seq<byte>, end: seq<byte>, mid: seq<byte>, start: seq<byte>, data: seq<byte>,
               more: seq<byte>)
    requires a + mid == start + data && b + end == mid + more
    ensures (a + b) + end == start + (data + more)
  {
    assert (a + b) + end == a + (b + end) == (a + mid) + more;
  }

  lemma RunCounts(chunks: seq<Chunk>)
    ensures |Received(chunks)| ==
              EncodedLength(Frames(RunPieces(FRESH, chunks))) +
              Tally(RunPieces(FRESH, chunks)).resyncDiscarded + |RunParser(FRESH, chunks).buffer|
  {
    RunConserves(FRESH, chunks);
    FlattenLength(RunPieces(FRESH, chunks));
    assert [] + Received(chunks) == Received(chunks);
  }

  predicate AllPermitted(pieces: seq<Piece>) {
    forall i :: 0 <= i < |pieces| && pieces[i].Whole? ==> Permitted(pieces[i].frame)
  }

  lemma {:induction false} PiecesPermitted(s: seq<byte>)
    ensures AllPermitted(Pieces(s))
    decreases |s|
  {
    hide At, Permitted;
    match Front(s)
    case Stay =>
    case Take(piece, size) =>
      PiecesPermitted(s[size..]);
      if At(s).Found? {
        FoundMeansEncoded(s);
      }
  }

  lemma FeedPermitted(p: Parser, data: seq<byte>, now: int)
    ensures AllPermitted(FedPieces(p, data, now))
  {
    hide Pieces, Permitted;
    var s := p.buffer + data;
    var kept := if |s| > RX_BUFFER_LIMIT then s[|s| - 3..] else s;
    PiecesPermitted(kept);
    if kept != [] {
      PiecesPermitted(kept[1..]);
    }
  }

  lemma PermittedConcat(a: seq<Piece>, b: seq<Piece>)
    requires AllPermitted(a) && AllPermitted(b)
    ensures AllPermitted(a + b)
  {
    hide Permitted;
  }

  /** Nothing but permitted frames is ever emitted. */
  lemma {:induction false} RunPermitted(p: Parser, chunks: seq<Chunk>)
    ensures AllPermitted(RunPieces(p, chunks))
    decreases |chunks|
  {
    if chunks != [] {
      var q := Fed(p, chunks[0].data, chunks[0].now);
      FeedPermitted(p, chunks[0].data, chunks[0].now);
      RunPermitted(q, chunks[1..]);
      PermittedConcat(FedPieces(p, chunks[0].data, chunks[0].now), RunPieces(q, chunks[1..]));
      hide *;
      RunFirst(p, chunks);
    }
  }

  // ---------------------------------------------------------------- a stream of valid frames

  /** Every call has room for its chunk and meets no candidate older than the timeout. */
  predicate Undisturbed(p: Parser, chunks: seq<Chunk>)
    decreases |chunks|
  {
    chunks == [] ||
    (RoomAndTime(p, chunks[0]) && Undisturbed(Fed(p, chunks[0].data, chunks[0].now), chunks[1..]))
  }

  /** The bytes fit, and a candidate at the front is at most two seconds old. */
  predicate RoomAndTime(p: Parser, chunk: Chunk) {
    |p.buffer| + |chunk.data| <= 16424 &&
    (MAGIC <= p.buffer + chunk.data && p.started.Some? ==> chunk.now - p.started.value <= 2000)
  }

  lemma UndisturbedFeed(p: Parser, chunk: Chunk)
    requires RoomAndTime(p, chunk)
    ensures FedPieces(p, chunk.data, chunk.now) == Pieces(p.buffer + chunk.data)
    ensures Fed(p, chunk.data, chunk.now).buffer == Rest(p.buffer + chunk.data)
  {
    hide Pieces, Rest, Front;
  }

  /** Such a run decides exactly what a scan of the whole byte string decides. */
  lemma {:induction false} UndisturbedRunIsScan(p: Parser, chunks: seq<Chunk>)
    requires Settled(p) && Undisturbed(p, chunks)
    ensures RunPieces(p, chunks) == Pieces(p.buffer + Received(chunks))
    ensures RunParser(p, chunks).buffer == Rest(p.buffer + Received(chunks))
    decreases |chunks|
  {
    if chunks == [] {
      assert p.buffer + Received(chunks) == p.buffer;
      assert Pieces(p.buffer) == [] && Rest(p.buffer) == p.buffer;
    } else {
      var data, now, more := chunks[0].data, chunks[0].now, chunks[1..];
      UndisturbedFeed(p, chunks[0]);
      FedIsSettled(p, data, now);
      UndisturbedRunIsScan(Fed(p, data, now), more);
      PiecesAppend(p.buffer + data, Received(more));
      hide *;
      assert Received(chunks) == data + Received(more) by { ReceivedFirst(chunks); }
      RunFirst(p, chunks);
      Associates(p.buffer, data, Received(more));
    }
  }

  /** What only a full buffer or an old candidate gives up. */
  predicate Disturbance(piece: Piece) {
    piece.Lost? && (piece.reason == Timeout || piece.reason == Overflow)
  }

  lemma DisturbedFeed(p: Parser, chunk: Chunk)
    requires !RoomAndTime(p, chunk)
    ensures var fed := FedPieces(p, chunk.data, chunk.now); fed != [] && Disturbance(fed[0])
  {
    hide Pieces, Rest, Front;
  }

  lemma {:induction false} DisturbedRun(p: Parser, chunks: seq<Chunk>)
    requires !Undisturbed(p, chunks)
    ensures exists piece :: piece in RunPieces(p, chunks) && Disturbance(piece)
    decreases |chunks|
  {
    hide Disturbance, FedPieces, Fed, RoomAndTime;
    var fed := FedPieces(p, chunks[0].data, chunks[0].now);
    var rest := RunPieces(Fed(p, chunks[0].data, chunks[0].now), chunks[1..]);
    assert RunPieces(p, chunks) == fed + rest;
    if RoomAndTime(p, chunks[0]) {
      DisturbedRun(Fed(p, chunks[0].data, chunks[0].now), chunks[1..]);
      var piece :| piece in rest && Disturbance(piece);
      assert piece in fed + rest;
    } else {
      DisturbedFeed(p, chunks[0]);
      assert fed[0] in fed + rest;
    }
  }

  lemma Associates(a: seq<byte>, b: seq<byte>, c: seq<byte>)
    ensures a + (b + c) == (a + b) + c
  {
  }

  lemma ReceivedFirst(chunks: seq<Chunk>)
    requires chunks != []
    ensures Received(chunks) == chunks[0].data + Received(chunks[1..])
  {
  }

  lemma RunFirst(p: Parser, chunks: seq<Chunk>)
    requires chunks != []
    ensures var q := Fed(p, chunks[0].data, chunks[0].now);
            RunPieces(p, chunks) == FedPieces(p, chunks[0].data, chunks[0].now) + RunPieces(q, chunks[1..]) &&
            RunParser(p, chunks) == RunParser(q, chunks[1..])
  {
  }

  /** A permitted frame, or a byte between frames that cannot start one. */
  predicate Clean(piece: Piece) {
    match piece
    case Whole(frame) => Permitted(frame)
    case Lost(bytes, reason) => |bytes| == 1 && bytes[0] != MAGIC[0] && reason == Noise
  }

  lemma CleanFront(piece: Piece, t: seq<byte>)
    requires Clean(piece)
    ensures PieceBytes(piece) != [] && Front(PieceBytes(piece) + t) == Take(piece, |PieceBytes(piece)|)
  {
    match piece
    case Whole(frame) =>
      EncodedIsFound(frame, t);
    case Lost(bytes, reason) =>
      var s := bytes + t;
      assert s[0] == bytes[0] && s[..1] == bytes;
      assert |s| >= 4 ==> s[..4][0] == s[0];
      assert At(s) == Skip(Noise);
  }

  /** The scan undoes Flatten: a stream of frames and harmless noise is taken apart exactly. */
  lemma {:induction false} ScanUndoesFlatten(pieces: seq<Piece>)
    requires forall i :: 0 <= i < |pieces| ==> Clean(pieces[i])
    ensures Pieces(Flatten(pieces)) == pieces && Rest(Flatten(pieces)) == []
  {
    if pieces == [] {
      NothingScanned();
    } else {
      hide Front, PieceBytes, Clean;
      CleanFront(pieces[0], Flatten(pieces[1..]));
      ScanUndoesFlatten(pieces[1..]);
      ScanStep(pieces[0], PieceBytes(pieces[0]), Flatten(pieces[1..]));
      assert pieces == [pieces[0]] + pieces[1..];
    }
  }

  lemma NothingScanned()
    ensures Pieces([]) == [] && Rest([]) == []
  {
  }

  lemma ScanStep(piece: Piece, bytes: seq<byte>, more: seq<byte>)
    requires Front(bytes + more) == Take(piece, |bytes|)
    ensures Pieces(bytes + more) == [piece] + Pieces(more) && Rest(bytes + more) == Rest(more)
  {
    hide Front;
    assert (bytes + more)[|bytes|..] == more;
  }

  /** The scan of a clean stream, loss reasons included, is what comes out, however the stream is cut
      and however long it lasts, if and only if no call overflowed the buffer or met a candidate
      older than the timeout. Then nothing stays behind, and without noise nothing is discarded. */
  lemma CleanStreamRecovered(pieces: seq<Piece>, chunks: seq<Chunk>)
    requires forall i :: 0 <= i < |pieces| ==> Clean(pieces[i])
    requires Received(chunks) == Flatten(pieces)
    ensures RunPieces(FRESH, chunks) == pieces <==> Undisturbed(FRESH, chunks)
    ensures Undisturbed(FRESH, chunks) ==> RunParser(FRESH, chunks) == FRESH
    ensures Undisturbed(FRESH, chunks) && AllWhole(pieces) ==>
              Tally(RunPieces(FRESH, chunks)) == NOTHING && |Frames(RunPieces(FRESH, chunks))| == |pieces|
  {
    if Undisturbed(FRESH, chunks) {
      hide Clean, Flatten, Undisturbed;
      UndisturbedRunIsScan(FRESH, chunks);
      ScanUndoesFlatten(pieces);
      assert [] + Received(chunks) == Flatten(pieces);
      RunSettled(FRESH, chunks);
      if AllWhole(pieces) {
        WholesTally(pieces);
      }
    } else {
      hide RunPieces, Flatten, Received, Undisturbed;
      DisturbedRun(FRESH, chunks);
      var piece :| piece in RunPieces(FRESH, chunks) && Disturbance(piece);
      assert piece !in pieces;
    }
  }

  predicate AllWhole(pieces: seq<Piece>) {
    forall i :: 0 <= i < |pieces| ==> pieces[i].Whole?
  }

  lemma WholeFirst(pieces: seq<Piece>)
    requires pieces != [] && AllWhole(pieces)
    ensures Tally(pieces) == Plus(NOTHING, Tally(pieces[1..])) && |Frames(pieces)| == 1 + |Frames(pieces[1..])|
    ensures AllWhole(pieces[1..])
  {
    hide Tally, Plus;
    assert pieces[0].Whole?;
    TallyFirst(pieces);
  }

  lemma TallyFirst(pieces: seq<Piece>)
    requires pieces != []
    ensures Tally(pieces) == Plus(TallyOne(pieces[0]), Tally(pieces[1..]))
  {
  }

  lemma {:induction false} WholesTally(pieces: seq<Piece>)
    requires AllWhole(pieces)
    ensures Tally(pieces) == NOTHING && |Frames(pieces)| == |pieces|
  {
    if pieces != [] {
      hide Tally, Frames, Plus, AllWhole;
      WholeFirst(pieces);
      WholesTally(pieces[1..]);
      PlusAssociates(NOTHING, NOTHING, NOTHING);
    }
  }
}