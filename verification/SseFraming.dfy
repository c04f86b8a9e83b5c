/** Cutting a byte stream into event-stream frames, piece by piece as the bytes arrive. */
module SseFraming {
  import opened Wrappers
  import opened Text
  import opened Sequences

  type Bytes = seq<byte>

  datatype Separator = LineFeeds | CarriageReturns
  {
    /** `\n\n` and `\r\n\r\n`. */
    function Bytes(): Bytes {
      if LineFeeds? then [10, 10] else [13, 10, 13, 10]
    }

    function Length(): nat {
      if LineFeeds? then 2 else 4
    }
  }

  /** A frame and the separator that ended it. */
  datatype Piece = Piece(frame: Bytes, separator: Separator)
  {
    function Length(): nat {
      |frame| + separator.Length()
    }
  }

  datatype Drained = Drained(pieces: seq<Piece>, rest: Bytes)

  predicate Occurs(buffer: Bytes, separator: Separator, at: nat) {
    at + separator.Length() <= |buffer| && buffer[at..at + separator.Length()] == separator.Bytes()
  }

  ghost predicate IsFirst(buffer: Bytes, separator: Separator, at: nat) {
    Occurs(buffer, separator, at) && forall q: nat | q < at :: !Occurs(buffer, separator, q)
  }

  lemma {:induction false} FirstExists(buffer: Bytes, separator: Separator, at: nat)
    requires Occurs(buffer, separator, at)
    ensures exists p: nat :: IsFirst(buffer, separator, p)
  {
    if q: nat :| q < at && Occurs(buffer, separator, q) {
      FirstExists(buffer, separator, q);
    } else {
      assert IsFirst(buffer, separator, at);
    }
  }

  /** Where a separator first occurs. */
  ghost function Position(buffer: Bytes, separator: Separator): Option<nat> {
    if at: nat :| Occurs(buffer, separator, at) then
      FirstExists(buffer, separator, at);
      var p: nat :| IsFirst(buffer, separator, p);
      Some(p)
    else None
  }

  /** The first line-feed separator anywhere, else the first carriage-return one. */
  ghost function FirstPiece(buffer: Bytes): (piece: Option<Piece>)
    ensures piece.Some? ==> 0 < piece.value.Length() <= |buffer|
  {
    match Position(buffer, LineFeeds)
    case Some(p) => Some(Piece(buffer[..p], LineFeeds))
    case None =>
      match Position(buffer, CarriageReturns)
      case Some(p) => Some(Piece(buffer[..p], CarriageReturns))
      case None => None
  }

  lemma FirstPieceSplits(buffer: Bytes)
    requires FirstPiece(buffer).Some?
    ensures var piece := FirstPiece(buffer).value;
      buffer == piece.frame + piece.separator.Bytes() + buffer[piece.Length()..]
  {
    var piece := FirstPiece(buffer).value;
    var p := |piece.frame|;
    assert Occurs(buffer, piece.separator, p);
    assert buffer == buffer[..p] + buffer[p..piece.Length()] + buffer[piece.Length()..];
  }

  /** Every complete frame of `buffer`, and what is left. */
  ghost function Drain(buffer: Bytes): Drained
    decreases |buffer|
  {
    match FirstPiece(buffer)
    case None => Drained([], buffer)
    case Some(piece) =>
      var later := Drain(buffer[piece.Length()..]);
      Drained([piece] + later.pieces, later.rest)
  }

  /** Draining after each chunk, starting with `buffer`. */
  ghost function DrainChunks(buffer: Bytes, chunks: seq<Bytes>): Drained
    decreases |chunks|
  {
    if chunks == [] then Drained([], buffer)
    else
      var first := Drain(buffer + chunks[0]);
      var later := DrainChunks(first.rest, chunks[1..]);
      Drained(first.pieces + later.pieces, later.rest)
  }

  function Glue(pieces: seq<Piece>): Bytes {
    if pieces == [] then [] else pieces[0].frame + pieces[0].separator.Bytes() + Glue(pieces[1..])
  }

  // ---- Conservation ----

  lemma {:induction false} DrainConserves(buffer: Bytes)
    ensures Glue(Drain(buffer).pieces) + Drain(buffer).rest == buffer
    decreases |buffer|
  {
    match FirstPiece(buffer)
    case None =>
    case Some(piece) =>
      var tail := buffer[piece.Length()..];
      DrainConserves(tail);
      FirstPieceSplits(buffer);
      GlueCons(piece, Drain(tail).pieces);
      Regroup(piece.frame + piece.separator.Bytes(), Glue(Drain(tail).pieces), Drain(tail).rest);
  }

  lemma GlueCons(piece: Piece, pieces: seq<Piece>)
    ensures Glue([piece] + pieces) == piece.frame + piece.separator.Bytes() + Glue(pieces)
  {
    assert ([piece] + pieces)[1..] == pieces;
  }

  lemma {:induction false} GlueAppend(a: seq<Piece>, b: seq<Piece>)
    ensures Glue(a + b) == Glue(a) + Glue(b)
  {
    if a == [] {
      assert a + b == b;
    } else {
      assert (a + b)[1..] == a[1..] + b;
      GlueAppend(a[1..], b);
      Regroup(a[0].frame + a[0].separator.Bytes(), Glue(a[1..]), Glue(b));
    }
  }

  /** However the stream is cut, frames, separators and leftover together are the bytes pushed. */
  lemma {:induction false} ChunksConserve(buffer: Bytes, chunks: seq<Bytes>)
    ensures Glue(DrainChunks(buffer, chunks).pieces) + DrainChunks(buffer, chunks).rest == buffer + Concat(chunks)
    decreases |chunks|
  {
    if chunks != [] {
      var first := Drain(buffer + chunks[0]);
      var later := DrainChunks(first.rest, chunks[1..]);
      DrainConserves(buffer + chunks[0]);
      ChunksConserve(first.rest, chunks[1..]);
      GlueAppend(first.pieces, later.pieces);
      Regroup(Glue(first.pieces), Glue(later.pieces), later.rest);
      Regroup(Glue(first.pieces), first.rest, Concat(chunks[1..]));
      Regroup(buffer, chunks[0], Concat(chunks[1..]));
    }
  }

  // ---- When the cuts do not matter ----

  /** No carriage-return separator of `buffer` is complete before byte `end`. */
  ghost predicate NoneEndsBefore(buffer: Bytes, end: nat) {
    forall q: nat | Occurs(buffer, CarriageReturns, q) :: end <= q + 4
  }

  /** At every step the separator that is taken is also the one whose last byte comes first. */
  ghost predicate Settled(buffer: Bytes)
    decreases |buffer|
  {
    match FirstPiece(buffer)
    case None => true
    case Some(piece) => NoneEndsBefore(buffer, piece.Length()) && Settled(buffer[piece.Length()..])
  }

  lemma OccursInPrefix(buffer: Bytes, more: Bytes, separator: Separator, at: nat)
    ensures Occurs(buffer, separator, at)
       <==> Occurs(buffer + more, separator, at) && at + separator.Length() <= |buffer|
  {
    if at + separator.Length() <= |buffer| {
      assert (buffer + more)[at..at + separator.Length()] == buffer[at..at + separator.Length()];
    }
  }

  lemma OccursInSuffix(buffer: Bytes, start: nat, separator: Separator, at: nat)
    requires start <= |buffer|
    ensures Occurs(buffer[start..], separator, at) <==> Occurs(buffer, separator, start + at)
  {
    if start + at + separator.Length() <= |buffer| {
      assert buffer[start..][at..at + separator.Length()] == buffer[start + at..start + at + separator.Length()];
    }
  }

  lemma SeparatorBytes(buffer: Bytes, separator: Separator, at: nat)
    requires Occurs(buffer, separator, at)
    ensures at + separator.Length() <= |buffer|
    ensures separator == LineFeeds ==> buffer[at] == 10 && buffer[at + 1] == 10
    ensures separator == CarriageReturns ==> buffer[at + 1] == 10 && buffer[at + 2] == 13
  {
    var slice := buffer[at..at + separator.Length()];
    assert slice[0] == buffer[at] && slice[1] == buffer[at + 1];
    if separator == CarriageReturns {
      assert slice[2] == buffer[at + 2];
    }
  }

  lemma PositionIs(buffer: Bytes, separator: Separator, p: nat)
    requires IsFirst(buffer, separator, p)
    ensures Position(buffer, separator) == Some(p)
  {
    var q := Position(buffer, separator).value;
    assert IsFirst(buffer, separator, q);
  }

  lemma PositionStable(buffer: Bytes, more: Bytes, separator: Separator)
    requires Position(buffer, separator).Some?
    ensures Position(buffer + more, separator) == Position(buffer, separator)
  {
    var p := Position(buffer, separator).value;
    OccursInPrefix(buffer, more, separator, p);
    forall q: nat | q < p
      ensures !Occurs(buffer + more, separator, q)
    {
      OccursInPrefix(buffer, more, separator, q);
    }
    PositionIs(buffer + more, separator, p);
  }

  /** A frame found early is still the first frame once all bytes are there. */
  lemma FirstPieceStable(buffer: Bytes, more: Bytes)
    requires Settled(buffer + more) && FirstPiece(buffer).Some?
    ensures FirstPiece(buffer + more) == FirstPiece(buffer)
  {
    var piece := FirstPiece(buffer).value;
    var p := |piece.frame|;
    assert (buffer + more)[..p] == buffer[..p];
    PositionStable(buffer, more, piece.separator);
    if piece.separator == CarriageReturns && Position(buffer + more, LineFeeds).Some? {
      var q := Position(buffer + more, LineFeeds).value;
      OccursInPrefix(buffer, more, CarriageReturns, p);
      assert q + 2 <= p + 4;
      OccursInPrefix(buffer, more, LineFeeds, q);
      assert false;
    }
  }

  lemma {:induction false} DrainInTwo(buffer: Bytes, more: Bytes)
    requires Settled(buffer + more)
    ensures var first := Drain(buffer);
      && Settled(first.rest + more)
      && Drain(buffer + more)
         == Drained(first.pieces + Drain(first.rest + more).pieces, Drain(first.rest + more).rest)
    decreases |buffer|
  {
    var first := Drain(buffer);
    match FirstPiece(buffer)
    case None =>
      assert [] + Drain(buffer + more).pieces == Drain(buffer + more).pieces;
    case Some(piece) =>
      FirstPieceStable(buffer, more);
      var tail := buffer[piece.Length()..];
      assert (buffer + more)[piece.Length()..] == tail + more;
      DrainInTwo(tail, more);
      var early := Drain(tail);
      var late := Drain(early.rest + more);
      Regroup([piece], early.pieces, late.pieces);
  }

  lemma {:induction false} SettledIsChunkInvariant(buffer: Bytes, chunks: seq<Bytes>)
    requires Settled(buffer + Concat(chunks)) && Drain(buffer) == Drained([], buffer)
    ensures DrainChunks(buffer, chunks) == Drain(buffer + Concat(chunks))
    decreases |chunks|
  {
    if chunks == [] {
      assert buffer + Concat(chunks) == buffer;
    } else {
      var later := Concat(chunks[1..]);
      assert buffer + Concat(chunks) == (buffer + chunks[0]) + later;
      DrainInTwo(buffer + chunks[0], later);
      DrainRestIsDry(buffer + chunks[0]);
      SettledIsChunkInvariant(Drain(buffer + chunks[0]).rest, chunks[1..]);
    }
  }

  lemma {:induction false} DrainRestIsDry(buffer: Bytes)
    ensures Drain(Drain(buffer).rest) == Drained([], Drain(buffer).rest)
    decreases |buffer|
  {
    match FirstPiece(buffer)
    case None =>
    case Some(piece) => DrainRestIsDry(buffer[piece.Length()..]);
  }

  // ---- When they do ----

  /** Cutting at or after the end of the first frame leaves that frame first. */
  lemma FirstPieceOfPrefix(buffer: Bytes, cut: nat)
    requires FirstPiece(buffer).Some? && FirstPiece(buffer).value.Length() <= cut <= |buffer|
    ensures FirstPiece(buffer[..cut]) == FirstPiece(buffer)
  {
    var prefix, more := buffer[..cut], buffer[cut..];
    assert buffer == prefix + more;
    var piece := FirstPiece(buffer).value;
    var p := |piece.frame|;
    assert prefix[..p] == buffer[..p];
    OccursInPrefix(prefix, more, piece.separator, p);
    PositionStable(prefix, more, piece.separator);
    if Position(prefix, LineFeeds).Some? {
      PositionStable(prefix, more, LineFeeds);
    }
  }

  /** Where the first `n` frames and their separators end. */
  lemma {:induction false} DrainOfPrefix(buffer: Bytes, n: nat) returns (cut: nat)
    requires n <= |Drain(buffer).pieces|
    ensures cut <= |buffer| && Drain(buffer[..cut]) == Drained(Drain(buffer).pieces[..n], [])
    decreases |buffer|
  {
    if n == 0 {
      cut := 0;
      assert forall s, q: nat :: !Occurs([], s, q);
    } else {
      var piece := FirstPiece(buffer).value;
      var tail := buffer[piece.Length()..];
      assert Drain(buffer).pieces[..n] == [piece] + Drain(tail).pieces[..n - 1];
      var later := DrainOfPrefix(tail, n - 1);
      cut := piece.Length() + later;
      FirstPieceOfPrefix(buffer, cut);
      assert buffer[..cut][piece.Length()..] == tail[..later];
    }
  }

  /** Cut right after a carriage-return separator that is complete before the first line-feed one:
      the first frame comes out shorter. */
  lemma CutBeforeLineFeeds(buffer: Bytes) returns (cut: nat)
    requires FirstPiece(buffer).Some? && !NoneEndsBefore(buffer, FirstPiece(buffer).value.Length())
    ensures cut <= |buffer| && FirstPiece(buffer[..cut]).Some?
    ensures FirstPiece(buffer[..cut]) != FirstPiece(buffer)
  {
    var q: nat :| Occurs(buffer, CarriageReturns, q) && q + 4 < FirstPiece(buffer).value.Length();
    cut := q + 4;
    var prefix, more := buffer[..cut], buffer[cut..];
    assert buffer == prefix + more;
    OccursInPrefix(prefix, more, CarriageReturns, q);
    assert FirstPiece(prefix).value.Length() <= cut;
  }

  /** The frames seen when the stream arrives in two chunks. */
  ghost function InTwo(a: Bytes, b: Bytes): seq<Piece> {
    Drain(a).pieces + Drain(Drain(a).rest + b).pieces
  }

  lemma InTwoIsChunks(a: Bytes, b: Bytes)
    ensures DrainChunks([], [a, b]).pieces == InTwo(a, b)
    ensures Concat([a, b]) == a + b
  {
    assert [] + a == a && [a, b][1..] == [b] && [b][1..] == [];
    assert DrainChunks(Drain(a).rest, [b]).pieces == Drain(Drain(a).rest + b).pieces;
    assert Concat([b]) == b;
  }

  lemma InTwoCons(buffer: Bytes, piece: Piece, cut: nat)
    requires FirstPiece(buffer) == Some(piece) && piece.Length() + cut <= |buffer|
    ensures var n, tail := piece.Length(), buffer[piece.Length()..];
      InTwo(buffer[..n + cut], buffer[n + cut..]) == [piece] + InTwo(tail[..cut], tail[cut..])
  {
    var n, tail := piece.Length(), buffer[piece.Length()..];
    FirstPieceOfPrefix(buffer, n + cut);
    assert buffer[..n + cut][n..] == tail[..cut] && buffer[n + cut..] == tail[cut..];
    var early := Drain(tail[..cut]);
    Regroup([piece], early.pieces, Drain(early.rest + tail[cut..]).pieces);
  }

  lemma {:induction false} UnsettledDependsOnCut(buffer: Bytes) returns (cut: nat)
    requires !Settled(buffer)
    ensures cut <= |buffer| && InTwo(buffer[..cut], buffer[cut..]) != Drain(buffer).pieces
    decreases |buffer|
  {
    var piece := FirstPiece(buffer).value;
    if !NoneEndsBefore(buffer, piece.Length()) {
      cut := CutBeforeLineFeeds(buffer);
      assert InTwo(buffer[..cut], buffer[cut..])[0] == FirstPiece(buffer[..cut]).value;
      assert Drain(buffer).pieces[0] == piece;
    } else {
      var n, tail := piece.Length(), buffer[piece.Length()..];
      var later := UnsettledDependsOnCut(tail);
      InTwoCons(buffer, piece, later);
      cut := n + later;
      assert InTwo(buffer[..cut], buffer[cut..])[1..] == InTwo(tail[..later], tail[later..]);
      assert Drain(buffer).pieces[1..] == Drain(tail).pieces;
    }
  }

  ghost predicate CutsDoNotMatter(stream: Bytes) {
    forall chunks | Concat(chunks) == stream :: DrainChunks([], chunks) == Drain(stream)
  }

  /** The frames and the leftover are independent of how the network cut the stream exactly when
      the stream is settled. */
  lemma ChunkInvariance(stream: Bytes)
    ensures CutsDoNotMatter(stream) <==> Settled(stream)
  {
    if Settled(stream) {
      forall chunks | Concat(chunks) == stream
        ensures DrainChunks([], chunks) == Drain(stream)
      {
        assert [] + Concat(chunks) == stream;
        SettledIsChunkInvariant([], chunks);
      }
    } else {
      var cut := UnsettledDependsOnCut(stream);
      InTwoIsChunks(stream[..cut], stream[cut..]);
      assert Concat([stream[..cut], stream[cut..]]) == stream;
    }
  }

  /** A stream without a carriage-return separator is settled: LF-only streams in particular. */
  lemma {:induction false} LineFeedFraming(stream: Bytes)
    requires forall q: nat :: !Occurs(stream, CarriageReturns, q)
    ensures Settled(stream)
    decreases |stream|
  {
    match FirstPiece(stream)
    case None =>
    case Some(piece) =>
      var n := piece.Length();
      forall q: nat
        ensures !Occurs(stream[n..], CarriageReturns, q)
      {
        OccursInSuffix(stream, n, CarriageReturns, q);
      }
      LineFeedFraming(stream[n..]);
  }

  /** So is a stream without two line feeds in a row. */
  lemma {:induction false} CarriageReturnFraming(stream: Bytes)
    requires forall q: nat :: !Occurs(stream, LineFeeds, q)
    ensures Settled(stream)
    decreases |stream|
  {
    match FirstPiece(stream)
    case None =>
    case Some(piece) =>
      var n := piece.Length();
      forall q: nat
        ensures !Occurs(stream[n..], LineFeeds, q)
      {
        OccursInSuffix(stream, n, LineFeeds, q);
      }
      CarriageReturnFraming(stream[n..]);
  }

  /** A stream that mixes the two: `a`, a carriage-return separator, `b`, a line-feed separator. */
  lemma MixedFramingDependsOnCut()
    ensures !CutsDoNotMatter([97, 13, 10, 13, 10, 98, 10, 10])
  {
    var stream: Bytes := [97, 13, 10, 13, 10, 98, 10, 10];
    assert Occurs(stream, CarriageReturns, 1);
    assert Occurs(stream, LineFeeds, 6);
    forall q: nat | q < 6
      ensures !Occurs(stream, LineFeeds, q)
    {
      assert stream[q] == stream[q..q + 2][0] && stream[q + 1] == stream[q..q + 2][1];
    }
    PositionIs(stream, LineFeeds, 6);
    assert !NoneEndsBefore(stream, 8);
    ChunkInvariance(stream);
  }
}
