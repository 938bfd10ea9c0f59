/** Which runs of the host parser return every frame of a clean stream. */
module StreamFrames {
  import opened Bytes
  import opened Frame
  import opened Delivery
  import opened HostStream

  /** How often the first byte of the magic occurs. */
  function Magics(s: seq<byte>): nat {
    if s == [] then 0 else (if s[0] == MAGIC[0] then 1 else 0) + Magics(s[1..])
  }

  lemma {:induction false} MagicsConcat(a: seq<byte>, b: seq<byte>)
    ensures Magics(a + b) == Magics(a) + Magics(b)
  {
    if a == [] {
      assert a + b == b;
    } else {
      assert (a + b)[1..] == a[1..] + b;
      MagicsConcat(a[1..], b);
    }
  }

  lemma {:induction false} NoMagics(s: seq<byte>)
    ensures Magics(s) == 0 <==> MAGIC[0] !in s
  {
    if s != [] {
      NoMagics(s[1..]);
      assert s == [s[0]] + s[1..];
    }
  }

  function LostMagics(pieces: seq<Piece>): nat {
    if pieces == [] then 0
    else (if pieces[0].Lost? then Magics(pieces[0].bytes) else 0) + LostMagics(pieces[1..])
  }

  function FrameMagics(frames: seq<Frame>): nat {
    if frames == [] then 0 else Magics(PieceBytes(Whole(frames[0]))) + FrameMagics(frames[1..])
  }

  /** They are in frames, or among the bytes given up. */
  lemma {:induction false} FlattenMagics(pieces: seq<Piece>)
    ensures Magics(Flatten(pieces)) == FrameMagics(Frames(pieces)) + LostMagics(pieces)
  {
    if pieces != [] {
      hide PieceBytes, Magics;
      FlattenMagics(pieces[1..]);
      MagicsConcat(PieceBytes(pieces[0]), Flatten(pieces[1..]));
      var rest := Frames(pieces[1..]);
      if pieces[0].Whole? {
        assert ([pieces[0].frame] + rest)[1..] == rest;
      } else {
        LostBytes(pieces[0]);
        assert [] + rest == rest;
      }
    } else {
      assert Magics([]) == 0;
    }
  }

  lemma LostBytes(piece: Piece)
    ensures piece.Lost? ==> PieceBytes(piece) == piece.bytes
  {
  }

  lemma {:induction false} LostMagicsConcat(a: seq<Piece>, b: seq<Piece>)
    ensures LostMagics(a + b) == LostMagics(a) + LostMagics(b)
  {
    hide Magics;
    if a == [] {
      assert a + b == b;
    } else {
      assert (a + b)[1..] == a[1..] + b;
      LostMagicsConcat(a[1..], b);
    }
  }

  lemma {:induction false} CleanLosesNone(pieces: seq<Piece>)
    requires forall i :: 0 <= i < |pieces| ==> Clean(pieces[i])
    ensures LostMagics(pieces) == 0
  {
    if pieces != [] {
      assert Clean(pieces[0]);
      if pieces[0].Lost? {
        NoMagics(pieces[0].bytes);
      }
      hide Clean, Magics;
      CleanLosesNone(pieces[1..]);
    }
  }

  // ---------------------------------------------------------------- what a call may give up

  /** The call overflows no more than noise away, and meets no candidate older than two seconds. */
  predicate SparesFrames(p: Parser, chunk: Chunk) {
    var s := p.buffer + chunk.data;
    if |s| > 16424 then MAGIC[0] !in s[..|s| - 3]
    else MAGIC <= s && p.started.Some? ==> chunk.now - p.started.value <= 2000
  }

  predicate FramesSpared(p: Parser, chunks: seq<Chunk>)
    decreases |chunks|
  {
    chunks == [] ||
    (SparesFrames(p, chunks[0]) && FramesSpared(Fed(p, chunks[0].data, chunks[0].now), chunks[1..]))
  }

  lemma NoiseOnly(s: seq<byte>, n: nat)
    requires n <= |s| && MAGIC[0] !in s[..n]
    ensures NoiseBefore(s, n)
  {
    forall i | 0 <= i < n ensures At(s[i..]) == Skip(Noise) {
      assert s[i] == s[..n][i] && s[i..][0] == s[i];
      assert |s[i..]| >= 4 ==> s[i..][..4][0] == s[i];
    }
  }

  /** Giving up noise early changes no frame of the scan. */
  lemma NoiseDropped(s: seq<byte>, n: nat, more: seq<byte>)
    requires n <= |s| && MAGIC[0] !in s[..n]
    ensures Frames(Pieces(s + more)) == Frames(Pieces(s[n..] + more)) && Rest(s + more) == Rest(s[n..] + more)
  {
    assert (s + more)[..n] == s[..n] && (s + more)[n..] == s[n..] + more;
    hide Pieces, Rest, Frames, NoisePieces, NoiseBefore;
    NoiseOnly(s + more, n);
    NoiseSkipped(s + more, n);
    NoiseTally(s[..n]);
    FramesConcat(NoisePieces(s[..n]), Pieces(s[n..] + more));
    assert [] + Frames(Pieces(s[n..] + more)) == Frames(Pieces(s[n..] + more));
  }

  lemma SparedFeed(p: Parser, chunk: Chunk, more: seq<byte>)
    requires SparesFrames(p, chunk)
    ensures var q := Fed(p, chunk.data, chunk.now);
            Frames(FedPieces(p, chunk.data, chunk.now)) + Frames(Pieces(q.buffer + more)) ==
              Frames(Pieces(p.buffer + chunk.data + more)) &&
            Rest(q.buffer + more) == Rest(p.buffer + chunk.data + more)
  {
    hide Pieces, Rest, Frames;
    var s := p.buffer + chunk.data;
    if |s| > RX_BUFFER_LIMIT {
      var n := |s| - 3;
      var tail := s[n..];
      NoiseDropped(s, n, more);
      PiecesAppend(tail, more);
      FramesConcat(Pieces(tail), Pieces(Rest(tail) + more));
      OverflowFrames(s[..n], Pieces(tail));
    } else {
      PiecesAppend(s, more);
      FramesConcat(Pieces(s), Pieces(Rest(s) + more));
    }
  }

  lemma OverflowFrames(bytes: seq<byte>, pieces: seq<Piece>)
    ensures Frames([Lost(bytes, Overflow)] + pieces) == Frames(pieces)
  {
    assert ([Lost(bytes, Overflow)] + pieces)[1..] == pieces;
  }

  /** A run that spares the frames returns those of a scan of the whole byte string. */
  lemma {:induction false} SparedRunIsScan(p: Parser, chunks: seq<Chunk>)
    requires Settled(p) && FramesSpared(p, chunks)
    ensures Frames(RunPieces(p, chunks)) == Frames(Pieces(p.buffer + Received(chunks)))
    ensures RunParser(p, chunks).buffer == Rest(p.buffer + Received(chunks))
    decreases |chunks|
  {
    if chunks == [] {
      assert p.buffer + Received(chunks) == p.buffer;
      assert Pieces(p.buffer) == [] && Rest(p.buffer) == p.buffer;
    } else {
      var data, now, more := chunks[0].data, chunks[0].now, chunks[1..];
      SparedFeed(p, chunks[0], Received(more));
      FedIsSettled(p, data, now);
      SparedRunIsScan(Fed(p, data, now), more);
      hide *;
      ReceivedFirst(chunks);
      RunFirst(p, chunks);
      Associates(p.buffer, data, Received(more));
      FramesConcat(FedPieces(p, data, now), RunPieces(Fed(p, data, now), more));
    }
  }

  /** Otherwise a byte is given up that only a frame can hold. */
  lemma UnsparedFeed(p: Parser, chunk: Chunk)
    requires !SparesFrames(p, chunk)
    ensures LostMagics(FedPieces(p, chunk.data, chunk.now)) > 0
  {
    hide Pieces, Rest;
    var fed := FedPieces(p, chunk.data, chunk.now);
    assert fed != [] && fed[0].Lost? && MAGIC[0] in fed[0].bytes;
    NoMagics(fed[0].bytes);
  }

  lemma {:induction false} UnsparedRun(p: Parser, chunks: seq<Chunk>)
    requires !FramesSpared(p, chunks)
    ensures LostMagics(RunPieces(p, chunks)) > 0
    decreases |chunks|
  {
    hide LostMagics, FedPieces, Fed, SparesFrames;
    var q := Fed(p, chunks[0].data, chunks[0].now);
    LostMagicsConcat(FedPieces(p, chunks[0].data, chunks[0].now), RunPieces(q, chunks[1..]));
    if SparesFrames(p, chunks[0]) {
      UnsparedRun(q, chunks[1..]);
    } else {
      UnsparedFeed(p, chunks[0]);
    }
  }

  lemma {:induction false} DisturbanceDiscards(p: Parser, chunks: seq<Chunk>)
    requires !Undisturbed(p, chunks)
    ensures Tally(RunPieces(p, chunks)).resyncDiscarded > 0
    decreases |chunks|
  {
    hide FedPieces, Fed, RoomAndTime, Tally;
    var fed := FedPieces(p, chunks[0].data, chunks[0].now);
    var q := Fed(p, chunks[0].data, chunks[0].now);
    TallyConcat(fed, RunPieces(q, chunks[1..]));
    if RoomAndTime(p, chunks[0]) {
      DisturbanceDiscards(q, chunks[1..]);
    } else {
      DisturbedFeedDiscards(p, chunks[0]);
    }
  }

  lemma DisturbedFeedDiscards(p: Parser, chunk: Chunk)
    requires !RoomAndTime(p, chunk)
    ensures Tally(FedPieces(p, chunk.data, chunk.now)).resyncDiscarded > 0
  {
    hide Pieces, Rest;
    var fed := FedPieces(p, chunk.data, chunk.now);
    assert fed != [] && fed[0].Lost? && fed[0].bytes != [];
    hide FedPieces;
    TallyFirst(fed);
  }

  // ---------------------------------------------------------------- the exact condition

  /** However a clean stream is cut and however long it lasts, exactly its frames come out, in order,
      if and only if no call met a candidate older than the timeout or overflowed the buffer by more
      than noise, that is, gave up a byte that could begin a frame. Without any noise this is to say
      that no call met an old candidate or overflowed the buffer at all. */
  lemma FramesRecovered(pieces: seq<Piece>, chunks: seq<Chunk>)
    requires forall i :: 0 <= i < |pieces| ==> Clean(pieces[i])
    requires Received(chunks) == Flatten(pieces)
    ensures Frames(RunPieces(FRESH, chunks)) == Frames(pieces) <==> FramesSpared(FRESH, chunks)
    ensures AllWhole(pieces) ==> (FramesSpared(FRESH, chunks) <==> Undisturbed(FRESH, chunks))
  {
    hide Clean, Flatten, Frames, RunPieces, Tally, Undisturbed, LostMagics, Magics, FramesSpared, AllWhole;
    assert [] + Received(chunks) == Received(chunks);
    if FramesSpared(FRESH, chunks) {
      SparedRunIsScan(FRESH, chunks);
      ScanUndoesFlatten(pieces);
    } else {
      UnsparedRun(FRESH, chunks);
      MagicsAdd(pieces, chunks);
    }
    if AllWhole(pieces) {
      WholeStream(pieces, chunks);
    }
  }

  /** A count that leaves no room for another lost first byte. */
  lemma MagicsAdd(pieces: seq<Piece>, chunks: seq<Chunk>)
    requires forall i :: 0 <= i < |pieces| ==> Clean(pieces[i])
    requires Received(chunks) == Flatten(pieces)
    ensures Frames(RunPieces(FRESH, chunks)) == Frames(pieces) ==> LostMagics(RunPieces(FRESH, chunks)) == 0
  {
    hide Clean, Flatten, Frames, RunPieces, LostMagics, Magics, FrameMagics, RunParser;
    var run := RunPieces(FRESH, chunks);
    RunConserves(FRESH, chunks);
    assert [] + Received(chunks) == Received(chunks);
    MagicsConcat(Flatten(run), RunParser(FRESH, chunks).buffer);
    FlattenMagics(run);
    FlattenMagics(pieces);
    CleanLosesNone(pieces);
  }

  lemma WholeStream(pieces: seq<Piece>, chunks: seq<Chunk>)
    requires AllWhole(pieces) && Received(chunks) == Flatten(pieces)
    requires FramesSpared(FRESH, chunks) ==> Frames(RunPieces(FRESH, chunks)) == Frames(pieces)
    ensures FramesSpared(FRESH, chunks) <==> Undisturbed(FRESH, chunks)
  {
    hide Flatten, Frames, RunPieces, Tally, Undisturbed, FramesSpared, AllWhole, EncodedLength, RunParser;
    if Undisturbed(FRESH, chunks) {
      UndisturbedSpares(FRESH, chunks);
    } else {
      DisturbanceDiscards(FRESH, chunks);
      RunCounts(chunks);
      FlattenLength(pieces);
      WholesTally(pieces);
    }
  }

  lemma {:induction false} UndisturbedSpares(p: Parser, chunks: seq<Chunk>)
    requires Undisturbed(p, chunks)
    ensures FramesSpared(p, chunks)
    decreases |chunks|
  {
    hide Fed, Expired;
    if chunks != [] {
      UndisturbedSpares(Fed(p, chunks[0].data, chunks[0].now), chunks[1..]);
    }
  }
}
