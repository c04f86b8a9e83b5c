/** The incremental event-stream parser: frames in, decoded events out. */
module SseParser {
  import opened Wrappers
  import opened Text
  import opened Sequences
  import opened SseFraming

  /** The library calls of the parser: lossy UTF-8 decoding and JSON decoding of an event. */
  datatype Codec<!E, !X> = Codec(decode: Bytes -> string, json: string -> Result<E, X>)

  // ---- One frame ----

  /** The contents of the `data:` lines; comments and other fields are skipped. */
  function DataLines(lines: seq<string>): seq<string> {
    if lines == [] then []
    else
      var line := lines[0];
      (if !StartsWith(line, ":") && !StartsWith(line, "event:") && StartsWith(line, "data:")
       then [TrimStart(line[5..])] else []) + DataLines(lines[1..])
  }

  /** The last `event:` line wins. */
  function EventName(lines: seq<string>): Option<string> {
    if lines == [] then None
    else
      var last := lines[|lines| - 1];
      if StartsWith(last, "event:") then Some(Trim(last[6..])) else EventName(lines[..|lines| - 1])
  }

  /** The JSON text a frame carries, if it carries one. */
  function FramePayload(frame: string): Option<string> {
    var lines := Lines(Trim(frame));
    var data := DataLines(lines);
    var payload := Join(data, "\n");
    if EventName(lines) == Some("ping") || data == [] || payload == "[DONE]" then None else Some(payload)
  }

  function FrameEvent<E, X>(frame: string, codec: Codec<E, X>): Result<Option<E>, X> {
    match FramePayload(frame)
    case None => Success(None)
    case Some(payload) =>
      match codec.json(payload)
      case Success(event) => Success(Some(event))
      case Failure(error) => Failure(error)
  }

  /** One more line. */
  lemma LinesSnoc(lines: seq<string>, i: nat)
    requires i < |lines|
    ensures EventName(lines[..i + 1])
         == if StartsWith(lines[i], "event:") then Some(Trim(lines[i][6..])) else EventName(lines[..i])
    ensures DataLines(lines[..i + 1]) == DataLines(lines[..i]) + DataLines([lines[i]])
  {
    assert lines[..i + 1][..i] == lines[..i];
    assert lines[..i + 1] == lines[..i] + [lines[i]];
    DataLinesAppend(lines[..i], [lines[i]]);
  }

  lemma OneLine(line: string)
    ensures DataLines([line])
         == if !StartsWith(line, ":") && !StartsWith(line, "event:") && StartsWith(line, "data:")
            then [TrimStart(line[5..])]
            else []
    ensures StartsWith(line, ":") ==> !StartsWith(line, "event:")
  {
    assert [line][1..] == [];
    if StartsWith(line, ":") {
      assert line[0] == ':';
    }
  }

  lemma {:induction false} DataLinesAppend(a: seq<string>, b: seq<string>)
    ensures DataLines(a + b) == DataLines(a) + DataLines(b)
  {
    if a == [] {
      assert a + b == b;
    } else {
      assert (a + b)[1..] == a[1..] + b;
      DataLinesAppend(a[1..], b);
    }
  }

  /** A line that is neither an event name nor data says nothing, wherever it stands; nor does a
      comment, whatever it contains. */
  lemma IgnoredLine(before: seq<string>, line: string, after: seq<string>)
    requires StartsWith(line, ":") || (!StartsWith(line, "event:") && !StartsWith(line, "data:"))
    ensures DataLines(before + [line] + after) == DataLines(before + after)
    ensures EventName(before + [line] + after) == EventName(before + after)
  {
    DataLinesAppend(before + [line], after);
    DataLinesAppend(before, [line]);
    DataLinesAppend(before, after);
    OneLine(line);
    assert DataLines(before) + [] == DataLines(before);
    IgnoredForName(before, line, after);
  }

  lemma {:induction false} IgnoredForName(before: seq<string>, line: string, after: seq<string>)
    requires !StartsWith(line, "event:")
    ensures EventName(before + [line] + after) == EventName(before + after)
  {
    var longer, shorter := before + [line] + after, before + after;
    if after == [] {
      assert longer[..|longer| - 1] == before && shorter == before;
    } else {
      assert longer[..|longer| - 1] == before + [line] + after[..|after| - 1];
      assert shorter[..|shorter| - 1] == before + after[..|after| - 1];
      IgnoredForName(before, line, after[..|after| - 1]);
    }
  }

  /** The name is that of the last line that gives one. */
  lemma {:induction false} LastNameCounts(before: seq<string>, name: string, after: seq<string>)
    requires forall i | 0 <= i < |after| :: !("event:" <= after[i])
    ensures EventName(before + ["event:" + name] + after) == Some(Trim(name))
  {
    var lines := before + ["event:" + name] + after;
    if after == [] {
      assert lines[|lines| - 1] == "event:" + name && ("event:" + name)[6..] == name;
    } else {
      var n := |after| - 1;
      assert lines[..|lines| - 1] == before + ["event:" + name] + after[..n] && lines[|lines| - 1] == after[n];
      LastNameCounts(before, name, after[..n]);
    }
  }

  /** `parse_frame`. */
  method ParseFrame<E, X>(frame: string, codec: Codec<E, X>) returns (r: Result<Option<E>, X>)
    ensures r == FrameEvent(frame, codec)
  {
    var trimmed := Trim(frame);
    if trimmed == "" {
      EmptyHasNoLines();
      return Success(None);
    }
    var dataLines, eventName := ReadLines(Lines(trimmed));
    if eventName == Some("ping") || dataLines == [] {
      return Success(None);
    }
    var payload := Join(dataLines, "\n");
    if payload == "[DONE]" {
      return Success(None);
    }
    match codec.json(payload)
    case Success(event) => return Success(Some(event));
    case Failure(error) => return Failure(error);
  }

  /** The loop over the lines. */
  method ReadLines(lines: seq<string>) returns (dataLines: seq<string>, eventName: Option<string>)
    ensures dataLines == DataLines(lines) && eventName == EventName(lines)
  {
    dataLines, eventName := [], None;
    for i := 0 to |lines|
      invariant dataLines == DataLines(lines[..i]) && eventName == EventName(lines[..i])
    {
      var line := lines[i];
      LinesSnoc(lines, i);
      OneLine(line);
      if StartsWith(line, ":") {
        continue;
      }
      if StartsWith(line, "event:") {
        eventName := Some(Trim(line[6..]));
        continue;
      }
      if StartsWith(line, "data:") {
        dataLines := dataLines + [TrimStart(line[5..])];
      }
    }
    assert lines[..|lines|] == lines;
  }

  // ---- The parser ----

  function Prepend<E, X>(first: Option<E>, rest: Result<seq<E>, X>): (r: Result<seq<E>, X>)
    ensures first.Some? && rest == Success([]) ==> r == Success([first.value])
  {
    if first.None? || rest.Failure? then rest
    else
      assert [first.value] + [] == [first.value];
      Success([first.value] + rest.value)
  }

  /** What one `push` answers and leaves in the buffer: it stops at the first frame that does not
      parse, and then answers no events at all. */
  ghost function Consume<E, X>(buffer: Bytes, codec: Codec<E, X>): (Result<seq<E>, X>, Bytes)
    decreases |buffer|
  {
    match FirstPiece(buffer)
    case None => (Success([]), buffer)
    case Some(piece) =>
      var tail := buffer[piece.Length()..];
      match FrameEvent(codec.decode(piece.frame), codec)
      case Failure(error) => (Failure(error), tail)
      case Success(event) => (Prepend(event, Consume(tail, codec).0), Consume(tail, codec).1)
  }

  function After<E, X>(events: seq<E>, rest: Result<seq<E>, X>): (r: Result<seq<E>, X>)
    ensures rest == Success([]) ==> r == Success(events)
    ensures events == [] ==> r == rest
  {
    if rest.Failure? then rest
    else
      assert events + [] == events && (events == [] ==> events + rest.value == rest.value);
      Success(events + rest.value)
  }

  class SseParser<E, X> {
    const codec: Codec<E, X>
    var buffer: Bytes

    constructor (codec: Codec<E, X>)
      ensures buffer == [] && this.codec == codec
    {
      this.codec := codec;
      buffer := [];
    }

    method FindSeparator(separator: Separator) returns (p: Option<nat>)
      ensures p == Position(buffer, separator)
    {
      for at := 0 to |buffer|
        invariant forall q: nat | q < at :: !Occurs(buffer, separator, q)
      {
        if Occurs(buffer, separator, at) {
          PositionIs(buffer, separator, at);
          return Some(at);
        }
      }
      return None;
    }

    method NextFrame() returns (frame: Option<string>)
      modifies this
      ensures match FirstPiece(old(buffer))
        case None => frame == None && buffer == old(buffer)
        case Some(piece) => frame == Some(codec.decode(piece.frame)) && buffer == old(buffer)[piece.Length()..]
    {
      var separator := LineFeeds;
      var position := FindSeparator(LineFeeds);
      if position.None? {
        separator := CarriageReturns;
        position := FindSeparator(CarriageReturns);
      }
      if position.None? {
        return None;
      }
      ghost var piece := FirstPiece(buffer).value;
      var end := position.value + separator.Length();
      var drained := buffer[..end];
      buffer := buffer[end..];
      assert drained[..position.value] == piece.frame;
      return Some(codec.decode(drained[..|drained| - separator.Length()]));
    }

    method Push(chunk: Bytes) returns (r: Result<seq<E>, X>)
      modifies this
      ensures (r, buffer) == Consume(old(buffer) + chunk, codec)
    {
      buffer := buffer + chunk;
      ghost var all := buffer;
      var events: seq<E> := [];
      while true
        invariant Consume(all, codec) == (After(events, Consume(buffer, codec).0), Consume(buffer, codec).1)
        decreases |buffer|
      {
        ghost var later := Consume(buffer, codec);
        var frame := NextFrame();
        if frame.None? {
          return Success(events);
        }
        var event := ParseFrame(frame.value, codec);
        if event.Failure? {
          return Failure(event.error);
        }
        if event.value.Some? {
          AfterPrepend(events, event.value.value, Consume(buffer, codec).0);
          events := events + [event.value.value];
        }
      }
    }

    /** Treats what is left at the end of the stream as one last frame. */
    method Finish() returns (r: Result<seq<E>, X>)
      modifies this
      ensures r == LastEvents(old(buffer), codec) && buffer == []
    {
      if buffer == [] {
        return Success([]);
      }
      var trailing := buffer;
      buffer := [];
      var event := ParseFrame(codec.decode(trailing), codec);
      match event
      case Failure(error) => return Failure(error);
      case Success(None) => return Success([]);
      case Success(Some(e)) => return Success([e]);
    }
  }

  lemma AfterPrepend<E, X>(events: seq<E>, event: E, rest: Result<seq<E>, X>)
    ensures After(events, Prepend(Some(event), rest)) == After(events + [event], rest)
  {
    if rest.Success? {
      assert events + ([event] + rest.value) == (events + [event]) + rest.value;
    }
  }

  function EventList<E, X>(event: Result<Option<E>, X>): Result<seq<E>, X> {
    match event
    case Failure(error) => Failure(error)
    case Success(None) => Success([])
    case Success(Some(e)) => Success([e])
  }

  function LastEvents<E, X>(buffer: Bytes, codec: Codec<E, X>): Result<seq<E>, X> {
    if buffer == [] then Success([]) else EventList(FrameEvent(codec.decode(buffer), codec))
  }

  // ---- Events do not depend on the cuts ----

  /** The events of the frames, in order, when every frame parses. */
  ghost function EventsOf<E, X>(pieces: seq<Piece>, codec: Codec<E, X>): Result<seq<E>, X> {
    if pieces == [] then Success([])
    else
      OneMoreFrame(FrameEvent(codec.decode(pieces[0].frame), codec), EventsOf(pieces[1..], codec))
  }

  function OneMoreFrame<E, X>(first: Result<Option<E>, X>, rest: Result<seq<E>, X>): Result<seq<E>, X> {
    if first.Failure? then Failure(first.error) else Prepend(first.value, rest)
  }

  /** The events of all pushes together, and the buffer after the last one. */
  ghost function PushAll<E, X>(buffer: Bytes, chunks: seq<Bytes>, codec: Codec<E, X>): (Result<seq<E>, X>, Bytes)
    decreases |chunks|
  {
    if chunks == [] then (Success([]), buffer)
    else
      match Consume(buffer + chunks[0], codec)
      case (Failure(error), rest) => (Failure(error), rest)
      case (Success(events), rest) =>
        (After(events, PushAll(rest, chunks[1..], codec).0), PushAll(rest, chunks[1..], codec).1)
  }

  lemma {:induction false} ConsumeIsDrain<E, X>(buffer: Bytes, codec: Codec<E, X>)
    ensures Consume(buffer, codec).0 == EventsOf(Drain(buffer).pieces, codec)
    ensures Consume(buffer, codec).0.Success? ==> Consume(buffer, codec).1 == Drain(buffer).rest
    decreases |buffer|
  {
    match FirstPiece(buffer)
    case None =>
    case Some(piece) =>
      var tail := buffer[piece.Length()..];
      assert Drain(buffer).pieces[1..] == Drain(tail).pieces;
      ConsumeIsDrain(tail, codec);
  }

  /** The frames up to one behind the first, in terms of the others. */
  lemma TakenCons<E, X>(piece: Piece, pieces: seq<Piece>, n: nat, rest: Bytes, codec: Codec<E, X>)
    requires n < |pieces| && FrameEvent(codec.decode(piece.frame), codec).Success?
    ensures EventsOf(pieces[..n], codec).Success? ==> EventsOf(([piece] + pieces)[..n + 1], codec).Success?
    ensures Glue(([piece] + pieces)[..n + 2]) + rest
         == piece.frame + piece.separator.Bytes() + (Glue(pieces[..n + 1]) + rest)
    ensures ([piece] + pieces)[n + 1] == pieces[n]
  {
    assert ([piece] + pieces)[..n + 1] == [piece] + pieces[..n];
    assert ([piece] + pieces)[..n + 2] == [piece] + pieces[..n + 1];
    EventsOfCons(piece, pieces[..n], codec);
    GlueCons(piece, pieces[..n + 1]);
    Regroup(piece.frame + piece.separator.Bytes(), Glue(pieces[..n + 1]), rest);
  }

  lemma FirstTaken(piece: Piece, pieces: seq<Piece>)
    ensures Glue(([piece] + pieces)[..1]) == piece.frame + piece.separator.Bytes()
  {
    assert ([piece] + pieces)[..1] == [piece] + [];
    GlueCons(piece, []);
    assert piece.frame + piece.separator.Bytes() + [] == piece.frame + piece.separator.Bytes();
  }

  /** A push that fails has taken all frames up to the one at fault, with their separators, and leaves the
      rest of the buffer as it was. */
  lemma {:induction false} FailedPushKeepsRest<E, X>(buffer: Bytes, codec: Codec<E, X>) returns (n: nat)
    requires Consume(buffer, codec).0.Failure?
    ensures n < |Drain(buffer).pieces| && EventsOf(Drain(buffer).pieces[..n], codec).Success?
    ensures FrameEvent(codec.decode(Drain(buffer).pieces[n].frame), codec) == Failure(Consume(buffer, codec).0.error)
    ensures Glue(Drain(buffer).pieces[..n + 1]) + Consume(buffer, codec).1 == buffer
    decreases |buffer|
  {
    var piece := FirstPiece(buffer).value;
    var tail := buffer[piece.Length()..];
    var pieces := Drain(tail).pieces;
    FirstPieceSplits(buffer);
    if FrameEvent(codec.decode(piece.frame), codec).Failure? {
      n := 0;
      FirstTaken(piece, pieces);
    } else {
      var later := FailedPushKeepsRest(tail, codec);
      n := later + 1;
      TakenCons(piece, pieces, later, Consume(tail, codec).1, codec);
    }
  }

  lemma PrependAfter<E, X>(first: Option<E>, a: Result<seq<E>, X>, b: Result<seq<E>, X>)
    requires a.Success?
    ensures Prepend(first, a).Success?
    ensures Prepend(first, After(a.value, b)) == After(Prepend(first, a).value, b)
  {
    if first.Some? && b.Success? {
      assert [first.value] + (a.value + b.value) == ([first.value] + a.value) + b.value;
    }
  }

  lemma {:induction false} EventsOfAppend<E, X>(a: seq<Piece>, b: seq<Piece>, codec: Codec<E, X>)
    ensures EventsOf(a + b, codec)
         == if EventsOf(a, codec).Failure? then EventsOf(a, codec)
            else After(EventsOf(a, codec).value, EventsOf(b, codec))
  {
    if a == [] {
      assert a + b == b;
    } else {
      assert (a + b)[0] == a[0] && (a + b)[1..] == a[1..] + b;
      EventsOfAppend(a[1..], b, codec);
      if EventsOf(a, codec).Success? {
        PrependAfter(FrameEvent(codec.decode(a[0].frame), codec).value, EventsOf(a[1..], codec), EventsOf(b, codec));
      }
    }
  }

  lemma {:induction false} PushAllIsDrain<E, X>(buffer: Bytes, chunks: seq<Bytes>, codec: Codec<E, X>)
    ensures PushAll(buffer, chunks, codec).0 == EventsOf(DrainChunks(buffer, chunks).pieces, codec)
    ensures PushAll(buffer, chunks, codec).0.Success? ==>
      PushAll(buffer, chunks, codec).1 == DrainChunks(buffer, chunks).rest
    decreases |chunks|
  {
    if chunks != [] {
      var first := Drain(buffer + chunks[0]);
      EventsOfAppend(first.pieces, DrainChunks(first.rest, chunks[1..]).pieces, codec);
      ConsumeIsDrain(buffer + chunks[0], codec);
      if Consume(buffer + chunks[0], codec).0.Success? {
        PushAllIsDrain(first.rest, chunks[1..], codec);
      }
    }
  }

  /** On a settled stream the events of all frames, or else the error of the first frame that does not
      parse, are the same whatever the chunks; and so is the leftover when all frames parse. */
  lemma EventsChunkInvariant<E, X>(chunks: seq<Bytes>, codec: Codec<E, X>)
    requires Settled(Concat(chunks))
    ensures PushAll([], chunks, codec).0 == EventsOf(Drain(Concat(chunks)).pieces, codec)
    ensures PushAll([], chunks, codec).0.Success? ==>
      PushAll([], chunks, codec).1 == Drain(Concat(chunks)).rest
  {
    assert [] + Concat(chunks) == Concat(chunks);
    SettledIsChunkInvariant([], chunks);
    PushAllIsDrain([], chunks, codec);
  }

  // ---- What is delivered before an error ----

  /** The events that the pushes before the first failing one have answered. */
  ghost function Delivered<E, X>(buffer: Bytes, chunks: seq<Bytes>, codec: Codec<E, X>): seq<E>
    decreases |chunks|
  {
    if chunks == [] then []
    else
      match Consume(buffer + chunks[0], codec)
      case (Failure(_), _) => []
      case (Success(events), rest) => events + Delivered(rest, chunks[1..], codec)
  }

  function OptionSeq<E>(event: Option<E>): seq<E> {
    if event.None? then [] else [event.value]
  }

  /** The events of the frames before the first one that does not parse. */
  function EventsBefore<E, X>(pieces: seq<Piece>, codec: Codec<E, X>): seq<E> {
    if pieces == [] then []
    else
      match FrameEvent(codec.decode(pieces[0].frame), codec)
      case Failure(_) => []
      case Success(event) => OptionSeq(event) + EventsBefore(pieces[1..], codec)
  }

  lemma PrependSeq<E, X>(event: Option<E>, rest: Result<seq<E>, X>)
    requires rest.Success?
    ensures Prepend(event, rest) == Success(OptionSeq(event) + rest.value)
  {
    assert [] + rest.value == rest.value;
  }

  lemma {:induction false} AllEventsBefore<E, X>(pieces: seq<Piece>, codec: Codec<E, X>)
    requires EventsOf(pieces, codec).Success?
    ensures EventsOf(pieces, codec).value == EventsBefore(pieces, codec)
  {
    if pieces != [] {
      AllEventsBefore(pieces[1..], codec);
      PrependSeq(FrameEvent(codec.decode(pieces[0].frame), codec).value, EventsOf(pieces[1..], codec));
    }
  }

  lemma EventsBeforeCons<E, X>(piece: Piece, pieces: seq<Piece>, codec: Codec<E, X>)
    ensures var first := FrameEvent(codec.decode(piece.frame), codec);
      first.Success? ==> EventsBefore([piece] + pieces, codec) == OptionSeq(first.value) + EventsBefore(pieces, codec)
  {
    assert ([piece] + pieces)[1..] == pieces;
  }

  lemma EventsOfCons<E, X>(piece: Piece, pieces: seq<Piece>, codec: Codec<E, X>)
    ensures EventsOf([piece] + pieces, codec)
         == OneMoreFrame(FrameEvent(codec.decode(piece.frame), codec), EventsOf(pieces, codec))
  {
    assert ([piece] + pieces)[1..] == pieces;
  }

  lemma {:induction false} EventsBeforeAppend<E, X>(a: seq<Piece>, b: seq<Piece>, codec: Codec<E, X>)
    requires EventsOf(a, codec).Success?
    ensures EventsBefore(a + b, codec) == EventsBefore(a, codec) + EventsBefore(b, codec)
  {
    if a == [] {
      assert a + b == b && [] + EventsBefore(b, codec) == EventsBefore(b, codec);
    } else {
      var piece, rest := a[0], a[1..];
      assert a == [piece] + rest;
      EventsOfCons(piece, rest, codec);
      EventsBeforeAppend(rest, b, codec);
      EventsBeforeCons(piece, rest, codec);
      EventsBeforeCons(piece, rest + b, codec);
      Regroup([piece], rest, b);
      Regroup(OptionSeq(FrameEvent(codec.decode(piece.frame), codec).value), EventsBefore(rest, codec),
              EventsBefore(b, codec));
    }
  }

  /** Whatever is delivered comes first among the events before the error; without an error, all is. */
  lemma {:induction false} DeliveredIsPrefix<E, X>(buffer: Bytes, chunks: seq<Bytes>, codec: Codec<E, X>)
    ensures var pieces := DrainChunks(buffer, chunks).pieces;
      && Delivered(buffer, chunks, codec) <= EventsBefore(pieces, codec)
      && (EventsOf(pieces, codec).Success? ==> Delivered(buffer, chunks, codec) == EventsBefore(pieces, codec))
    decreases |chunks|
  {
    if chunks != [] {
      var first := Drain(buffer + chunks[0]);
      var later := DrainChunks(first.rest, chunks[1..]);
      ConsumeIsDrain(buffer + chunks[0], codec);
      EventsOfAppend(first.pieces, later.pieces, codec);
      if EventsOf(first.pieces, codec).Success? {
        DeliveredIsPrefix(first.rest, chunks[1..], codec);
        AllEventsBefore(first.pieces, codec);
        EventsBeforeAppend(first.pieces, later.pieces, codec);
      }
    }
  }

  /** How many frames come before the first one that does not parse. */
  lemma {:induction false} BeforeFirstError<E, X>(pieces: seq<Piece>, codec: Codec<E, X>) returns (n: nat)
    requires EventsOf(pieces, codec).Failure?
    ensures n < |pieces| && EventsOf(pieces[..n], codec) == Success(EventsBefore(pieces, codec))
  {
    match FrameEvent(codec.decode(pieces[0].frame), codec)
    case Failure(_) => n := 0;
    case Success(event) =>
      var later := BeforeFirstError(pieces[1..], codec);
      n := later + 1;
      assert pieces[..n][1..] == pieces[1..][..later];
      PrependSeq<E, X>(event, EventsOf(pieces[1..][..later], codec));
  }

  lemma DeliversFirst<E, X>(a: Bytes, b: Bytes, codec: Codec<E, X>)
    ensures Consume(a, codec).0.Success? ==> Consume(a, codec).0.value <= Delivered([], [a, b], codec)
  {
    assert [] + a == a;
  }

  /** The first `n` frames, in a chunk of their own. */
  lemma ChunkOfFrames(stream: Bytes, n: nat) returns (a: Bytes, b: Bytes)
    requires n <= |Drain(stream).pieces|
    ensures Concat([a, b]) == stream && Drain(a).pieces == Drain(stream).pieces[..n]
  {
    var cut := DrainOfPrefix(stream, n);
    a, b := stream[..cut], stream[cut..];
    InTwoIsChunks(a, b);
  }

  /** Cut right after those frames: what came before the error is delivered. */
  lemma CutBeforeError<E, X>(stream: Bytes, codec: Codec<E, X>) returns (chunks: seq<Bytes>)
    requires EventsOf(Drain(stream).pieces, codec).Failure?
    ensures Concat(chunks) == stream
    ensures EventsBefore(Drain(stream).pieces, codec) <= Delivered([], chunks, codec)
  {
    var n := BeforeFirstError(Drain(stream).pieces, codec);
    var a, b := ChunkOfFrames(stream, n);
    ConsumeIsDrain(a, codec);
    DeliversFirst(a, b, codec);
    chunks := [a, b];
  }

  ghost predicate CutsDeliverTheSame<E, X>(stream: Bytes, codec: Codec<E, X>) {
    forall chunks | Concat(chunks) == stream :: Delivered([], chunks, codec) == Delivered([], [stream], codec)
  }

  /** In one chunk a stream with a frame that does not parse delivers nothing. */
  lemma OneChunkDelivers<E, X>(stream: Bytes, codec: Codec<E, X>)
    ensures EventsOf(Drain(stream).pieces, codec).Failure? ==> Delivered([], [stream], codec) == []
  {
    assert [] + stream == stream;
    ConsumeIsDrain(stream, codec);
  }

  lemma SettledDelivery<E, X>(chunks: seq<Bytes>, codec: Codec<E, X>)
    requires Settled(Concat(chunks))
    ensures var pieces := Drain(Concat(chunks)).pieces;
      && Delivered([], chunks, codec) <= EventsBefore(pieces, codec)
      && (EventsOf(pieces, codec).Success? ==> Delivered([], chunks, codec) == EventsBefore(pieces, codec))
  {
    assert [] + Concat(chunks) == Concat(chunks);
    SettledIsChunkInvariant([], chunks);
    DeliveredIsPrefix([], chunks, codec);
  }

  lemma SameDelivery<E, X>(stream: Bytes, codec: Codec<E, X>)
    requires Settled(stream)
    requires EventsOf(Drain(stream).pieces, codec).Success? || EventsBefore(Drain(stream).pieces, codec) == []
    ensures CutsDeliverTheSame(stream, codec)
  {
    assert Concat([stream]) == stream;
    SettledDelivery([stream], codec);
    forall chunks | Concat(chunks) == stream
      ensures Delivered([], chunks, codec) == Delivered([], [stream], codec)
    {
      SettledDelivery(chunks, codec);
    }
  }

  lemma OtherDelivery<E, X>(stream: Bytes, codec: Codec<E, X>)
    requires EventsOf(Drain(stream).pieces, codec).Failure? && EventsBefore(Drain(stream).pieces, codec) != []
    ensures !CutsDeliverTheSame(stream, codec)
  {
    var chunks := CutBeforeError(stream, codec);
    OneChunkDelivers(stream, codec);
    assert Concat(chunks) == stream && Delivered([], chunks, codec) != [];
  }

  /** The events that the caller has got by the time of an error depend on the cut: on a settled stream
      they are the same for every cut if and only if every frame parses, or no event comes before the
      first frame that does not. */
  lemma DeliveryChunkInvariance<E, X>(stream: Bytes, codec: Codec<E, X>)
    requires Settled(stream)
    ensures CutsDeliverTheSame(stream, codec)
       <==> EventsOf(Drain(stream).pieces, codec).Success? || EventsBefore(Drain(stream).pieces, codec) == []
  {
    if EventsOf(Drain(stream).pieces, codec).Success? || EventsBefore(Drain(stream).pieces, codec) == [] {
      SameDelivery(stream, codec);
    } else {
      OtherDelivery(stream, codec);
    }
  }

  /** Decoding leaves a line feed alone, whatever bytes it follows. */
  ghost predicate DecodesBreaks<E, X>(codec: Codec<E, X>) {
    forall bytes :: codec.decode(bytes + [10]) == codec.decode(bytes) + "\n"
  }

  /** Ending the stream without the last separator loses nothing: `Finish` yields the event that
      the separator would have yielded, whether or not the last line was complete; a line feed that
      was already there is left over. */
  lemma FinishCompletes<E, X>(buffer: Bytes, codec: Codec<E, X>)
    requires buffer != [] && FirstPiece(buffer) == None
    requires buffer[|buffer| - 1] == 10 ==> DecodesBreaks(codec)
    ensures Consume(buffer + LineFeeds.Bytes(), codec)
         == (LastEvents(buffer, codec), if buffer[|buffer| - 1] == 10 then [10] else [])
  {
    if buffer[|buffer| - 1] == 10 {
      var frame := buffer[..|buffer| - 1];
      assert buffer == frame + [10];
      LastSeparator(buffer, frame, [10]);
      LastFrame(buffer + LineFeeds.Bytes(), frame, [10], codec);
      BreakSaysNothing(codec.decode(frame), codec);
    } else {
      LastSeparator(buffer, buffer, []);
      LastFrame(buffer + LineFeeds.Bytes(), buffer, [], codec);
    }
  }

  /** A buffer with one frame and at most one more byte. */
  lemma LastFrame<E, X>(all: Bytes, frame: Bytes, rest: Bytes, codec: Codec<E, X>)
    requires FirstPiece(all) == Some(Piece(frame, LineFeeds)) && all[|frame| + 2..] == rest && |rest| <= 1
    ensures Consume(all, codec) == (EventList(FrameEvent(codec.decode(frame), codec)), rest)
  {
    assert forall s, q: nat :: !Occurs(rest, s, q);
    assert FirstPiece(rest) == None;
  }

  lemma LastSeparator(buffer: Bytes, frame: Bytes, rest: Bytes)
    requires buffer != [] && FirstPiece(buffer) == None
    requires buffer + LineFeeds.Bytes() == frame + LineFeeds.Bytes() + rest && |frame| <= |buffer|
    requires |frame| < |buffer| || buffer[|buffer| - 1] != 10
    ensures FirstPiece(buffer + LineFeeds.Bytes()) == Some(Piece(frame, LineFeeds))
    ensures (buffer + LineFeeds.Bytes())[|frame| + 2..] == rest
  {
    var all, n := buffer + LineFeeds.Bytes(), |frame|;
    assert all[n..n + 2] == LineFeeds.Bytes() && all[..n] == frame;
    forall q: nat | q < n
      ensures !Occurs(all, LineFeeds, q)
    {
      OccursInPrefix(buffer, LineFeeds.Bytes(), LineFeeds, q);
      assert all[q..q + 2][0] == buffer[q];
    }
    PositionIs(all, LineFeeds, n);
  }

  lemma {:induction false} TrimBreak(s: string)
    ensures Trim(s + "\n") == Trim(s)
  {
    if s == "" {
      assert ("" + "\n")[1..] == "";
    } else if IsWhitespace(s[0]) {
      assert (s + "\n")[1..] == s[1..] + "\n";
      TrimBreak(s[1..]);
    } else {
      assert (s + "\n")[..|s|] == s;
    }
  }

  /** A line feed at the end of a frame changes nothing. */
  lemma BreakSaysNothing<E, X>(frame: string, codec: Codec<E, X>)
    ensures FrameEvent(frame + "\n", codec) == FrameEvent(frame, codec)
  {
    TrimBreak(frame);
  }
}
