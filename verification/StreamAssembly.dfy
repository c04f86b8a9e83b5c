/** Assembling a streamed response: the event fold with its pending tool call, against the direct
    conversion of the finished response. */
module StreamAssembly {
  import opened Wrappers
  import opened Sequences

  // ---- What the provider sends ----

  /** JSON values, of which the code only asks these two things. */
  datatype Json<!J> = Json(show: J -> string, isEmptyObject: J -> bool)

  datatype Block<+J> =
    | Text(text: string)
    | ToolUse(id: string, name: string, input: J)
    | Thinking
    | RedactedThinking

  datatype Delta =
    | TextDelta(text: string)
    | InputJsonDelta(partialJson: string)
    | ThinkingDelta
    | SignatureDelta

  datatype StreamEvent<+J, +U> =
    | MessageStart(content: seq<Block<J>>)
    | ContentBlockStart(block: Block<J>)
    | ContentBlockDelta(delta: Delta)
    | ContentBlockStop
    | MessageDelta(usage: U)
    | MessageStop

  // ---- What the agent loop gets ----

  datatype AssistantEvent<+U, +P> =
    | Said(text: string)
    | Called(id: string, name: string, input: string)
    | Used(usage: U)
    | CacheBreak(event: P)
    | Stopped

  datatype PendingTool = PendingTool(id: string, name: string, input: string)

  /** The fold's mutable locals. */
  datatype Assembly<+U, +P> = Assembly(events: seq<AssistantEvent<U, P>>, pending: Option<PendingTool>)

  /** `push_output_block`. While streaming, an empty object means that the input is still to come. */
  function PushBlock<J, U, P>(a: Assembly<U, P>, block: Block<J>, streaming: bool, json: Json<J>): Assembly<U, P> {
    match block
    case Text(text) => if text == "" then a else a.(events := a.events + [Said(text)])
    case ToolUse(id, name, input) =>
      var initial := if streaming && json.isEmptyObject(input) then "" else json.show(input);
      a.(pending := Some(PendingTool(id, name, initial)))
    case Thinking => a
    case RedactedThinking => a
  }

  function PushBlocks<J, U, P>(a: Assembly<U, P>, blocks: seq<Block<J>>, json: Json<J>): Assembly<U, P>
    decreases |blocks|
  {
    if blocks == [] then a else PushBlocks(PushBlock(a, blocks[0], true, json), blocks[1..], json)
  }

  /** Hands the pending tool call over, if there is one. */
  function TakePending<U, P>(a: Assembly<U, P>): Assembly<U, P> {
    match a.pending
    case None => a
    case Some(tool) => Assembly(a.events + [Called(tool.id, tool.name, tool.input)], None)
  }

  function OnEvent<J, U, P>(a: Assembly<U, P>, event: StreamEvent<J, U>, json: Json<J>): Assembly<U, P> {
    match event
    case MessageStart(content) => PushBlocks(a, content, json)
    case ContentBlockStart(block) => PushBlock(a, block, true, json)
    case ContentBlockDelta(TextDelta(text)) => if text == "" then a else a.(events := a.events + [Said(text)])
    case ContentBlockDelta(InputJsonDelta(part)) =>
      if a.pending.None? then a
      else a.(pending := Some(a.pending.value.(input := a.pending.value.input + part)))
    case ContentBlockDelta(_) => a
    case ContentBlockStop => TakePending(a)
    case MessageDelta(usage) => a.(events := a.events + [Used(usage)])
    case MessageStop => a.(events := a.events + [Stopped])
  }

  function Fold<J, U, P>(a: Assembly<U, P>, stream: seq<StreamEvent<J, U>>, json: Json<J>): Assembly<U, P>
    decreases |stream|
  {
    if stream == [] then a else Fold(OnEvent(a, stream[0], json), stream[1..], json)
  }

  // ---- The finished response ----

  datatype Response<+J, +U> = Response(content: seq<Block<J>>, usage: U)

  function BlockEvent<J, U, P>(block: Block<J>, json: Json<J>): seq<AssistantEvent<U, P>> {
    match block
    case Text(text) => if text == "" then [] else [Said(text)]
    case ToolUse(id, name, input) => [Called(id, name, json.show(input))]
    case _ => []
  }

  function BlockEvents<J, U, P>(blocks: seq<Block<J>>, json: Json<J>): seq<AssistantEvent<U, P>> {
    if blocks == [] then [] else BlockEvent(blocks[0], json) + BlockEvents(blocks[1..], json)
  }

  /** `response_to_events`. */
  function ResponseEvents<J, U, P>(response: Response<J, U>, json: Json<J>): seq<AssistantEvent<U, P>> {
    BlockEvents(response.content, json) + [Used(response.usage), Stopped]
  }

  method ResponseToEvents<J, U, P>(response: Response<J, U>, json: Json<J>) returns (events: seq<AssistantEvent<U, P>>)
    ensures events == ResponseEvents(response, json)
  {
    var a: Assembly<U, P> := Assembly([], None);
    var blocks := response.content;
    assert blocks[0..] == blocks;
    for i := 0 to |blocks|
      invariant a.pending == None
      invariant a.events + BlockEvents(blocks[i..], json) == BlockEvents(blocks, json)
    {
      assert blocks[i..][1..] == blocks[i + 1..];
      ghost var before := a.events;
      a := TakePending(PushBlock(a, blocks[i], false, json));
      assert a.events == before + BlockEvent(blocks[i], json);
      assert (before + BlockEvent(blocks[i], json)) + BlockEvents(blocks[i + 1..], json)
          == before + (BlockEvent(blocks[i], json) + BlockEvents(blocks[i + 1..], json));
    }
    assert a.events + [] == a.events;
    events := a.events + [Used(response.usage), Stopped];
  }

  // ---- The streaming call ----

  /** How the provider's stream ends. */
  datatype Ending<+X> = EndOfStream | Broken(error: X)

  function WithCacheRecord<U, P>(events: seq<AssistantEvent<U, P>>, record: Option<P>): seq<AssistantEvent<U, P>> {
    if record.None? then events else events + [CacheBreak(record.value)]
  }

  predicate HasStop<U, P>(events: seq<AssistantEvent<U, P>>) {
    exists i | 0 <= i < |events| :: events[i].Stopped?
  }

  predicate HasContent<U, P>(events: seq<AssistantEvent<U, P>>) {
    exists i | 0 <= i < |events| :: (events[i].Said? && events[i].text != "") || events[i].Called?
  }

  /** The result of a streamed request. When the stream ended without a stop, one is added to any
      content there was; without content either, the request was sent again, unstreamed. */
  ghost function StreamResult<J, U, P, X>(
    stream: seq<StreamEvent<J, U>>, ending: Ending<X>, record: Option<P>,
    unstreamed: Result<Response<J, U>, X>, unstreamedRecord: Option<P>, json: Json<J>)
    : Result<seq<AssistantEvent<U, P>>, X>
  {
    if ending.Broken? then Failure(ending.error)
    else
      var events := WithCacheRecord(Fold(Assembly([], None), stream, json).events, record);
      if HasStop(events) then Success(events)
      else if HasContent(events) then Success(events + [Stopped])
      else if unstreamed.Failure? then Failure(unstreamed.error)
      else Success(WithCacheRecord(ResponseEvents(unstreamed.value, json), unstreamedRecord))
  }

  lemma StopSeen<J, U, P>(a: Assembly<U, P>, event: StreamEvent<J, U>, json: Json<J>)
    ensures HasStop(OnEvent(a, event, json).events) <==> HasStop(a.events) || event.MessageStop?
  {
    if event.MessageStart? {
      PushBlocksExtend(a, event.content, json);
    }
    var later := OnEvent(a, event, json).events;
    if event.MessageStop? {
      assert later[|a.events|].Stopped?;
    }
    assert a.events <= later;
  }

  lemma {:induction false} PushBlocksExtend<J, U, P>(a: Assembly<U, P>, blocks: seq<Block<J>>, json: Json<J>)
    ensures a.events <= PushBlocks(a, blocks, json).events
    ensures HasStop(PushBlocks(a, blocks, json).events) ==> HasStop(a.events)
    decreases |blocks|
  {
    if blocks != [] {
      PushBlocksExtend(PushBlock(a, blocks[0], true, json), blocks[1..], json);
    }
  }

  lemma RecordIsNoStop<U, P>(events: seq<AssistantEvent<U, P>>, record: Option<P>)
    ensures HasStop(WithCacheRecord(events, record)) <==> HasStop(events)
  {
    assert events <= WithCacheRecord(events, record);
  }

  method Stream<J, U, P, X>(
    stream: seq<StreamEvent<J, U>>, ending: Ending<X>, record: Option<P>,
    unstreamed: Result<Response<J, U>, X>, unstreamedRecord: Option<P>, json: Json<J>)
    returns (r: Result<seq<AssistantEvent<U, P>>, X>)
    ensures r == StreamResult(stream, ending, record, unstreamed, unstreamedRecord, json)
    ensures r.Success? ==> HasStop(r.value)
  {
    var a: Assembly<U, P> := Assembly([], None);
    var sawStop := false;
    assert stream[0..] == stream;
    for i := 0 to |stream|
      invariant Fold(a, stream[i..], json) == Fold(Assembly([], None), stream, json)
      invariant sawStop <==> HasStop(a.events)
    {
      assert stream[i..][1..] == stream[i + 1..];
      StopSeen(a, stream[i], json);
      a := OnEvent(a, stream[i], json);
      if stream[i].MessageStop? {
        sawStop := true;
      }
    }
    if ending.Broken? {
      return Failure(ending.error);
    }
    RecordIsNoStop(a.events, record);
    var events := WithCacheRecord(a.events, record);
    if !sawStop && HasContent(events) {
      events := events + [Stopped];
      assert events[|events| - 1].Stopped?;
    }
    if HasStop(events) {
      return Success(events);
    }
    if unstreamed.Failure? {
      return Failure(unstreamed.error);
    }
    events := ResponseToEvents(unstreamed.value, json);
    assert events[|events| - 1].Stopped?;
    r := Success(WithCacheRecord(events, unstreamedRecord));
    assert r.value[|events| - 1].Stopped?;
  }

  // ---- Well-formed streams ----

  /** A block as it travels: a start, deltas, a stop. `input` is what the tool call finally is. */
  datatype Streamed<+J> =
    | StreamedText(first: string, parts: seq<string>)
    | StreamedTool(id: string, name: string, start: J, parts: seq<string>, input: J)
    | StreamedThinking(redacted: bool, thoughts: nat, signatures: nat)

  function TextDeltas<J, U>(parts: seq<string>): seq<StreamEvent<J, U>> {
    if parts == [] then [] else [ContentBlockDelta(TextDelta(parts[0]))] + TextDeltas(parts[1..])
  }

  function InputDeltas<J, U>(parts: seq<string>): seq<StreamEvent<J, U>> {
    if parts == [] then [] else [ContentBlockDelta(InputJsonDelta(parts[0]))] + InputDeltas(parts[1..])
  }

  function SilentDeltas<J, U>(delta: Delta, count: nat): seq<StreamEvent<J, U>> {
    if count == 0 then [] else [ContentBlockDelta(delta)] + SilentDeltas(delta, count - 1)
  }

  function OnWire<J, U>(block: Streamed<J>): seq<StreamEvent<J, U>> {
    match block
    case StreamedText(first, parts) => [ContentBlockStart(Text(first))] + TextDeltas(parts) + [ContentBlockStop]
    case StreamedTool(id, name, start, parts, _) =>
      [ContentBlockStart(ToolUse(id, name, start))] + InputDeltas(parts) + [ContentBlockStop]
    case StreamedThinking(redacted, thoughts, signatures) =>
      [ContentBlockStart(if redacted then RedactedThinking else Thinking)]
      + (SilentDeltas(ThinkingDelta, thoughts) + SilentDeltas(SignatureDelta, signatures))
      + [ContentBlockStop]
  }

  function OnWireAll<J, U>(blocks: seq<Streamed<J>>): seq<StreamEvent<J, U>> {
    if blocks == [] then [] else OnWire(blocks[0]) + OnWireAll(blocks[1..])
  }

  /** One open block at a time, nothing in the message start. */
  function WellFormed<J, U>(blocks: seq<Streamed<J>>, usage: U): seq<StreamEvent<J, U>> {
    [MessageStart([])] + OnWireAll(blocks) + [MessageDelta(usage), MessageStop]
  }

  function Assembled<J>(block: Streamed<J>): Block<J> {
    match block
    case StreamedText(first, parts) => Text(first + Concat(parts))
    case StreamedTool(id, name, _, _, input) => ToolUse(id, name, input)
    case StreamedThinking(redacted, _, _) => if redacted then RedactedThinking else Thinking
  }

  function AssembledAll<J>(blocks: seq<Streamed<J>>): seq<Block<J>> {
    if blocks == [] then [] else [Assembled(blocks[0])] + AssembledAll(blocks[1..])
  }

  /** The input text that the fold accumulates for a tool call. */
  function Accumulated<J>(start: J, parts: seq<string>, json: Json<J>): string {
    (if json.isEmptyObject(start) then "" else json.show(start)) + Concat(parts)
  }

  /** The deltas of a tool call spell out its serialized input. */
  predicate Complete<J>(block: Streamed<J>, json: Json<J>) {
    block.StreamedTool? ==> Accumulated(block.start, block.parts, json) == json.show(block.input)
  }

  // ---- The fold, block by block ----

  function SaidAll<U, P>(parts: seq<string>): seq<AssistantEvent<U, P>> {
    if parts == [] then []
    else (if parts[0] == "" then [] else [Said(parts[0])]) + SaidAll(parts[1..])
  }

  function Emitted<J, U, P>(block: Streamed<J>, json: Json<J>): seq<AssistantEvent<U, P>> {
    match block
    case StreamedText(first, parts) => SaidAll([first] + parts)
    case StreamedTool(id, name, start, parts, _) => [Called(id, name, Accumulated(start, parts, json))]
    case StreamedThinking(_, _, _) => []
  }

  function EmittedAll<J, U, P>(blocks: seq<Streamed<J>>, json: Json<J>): seq<AssistantEvent<U, P>> {
    if blocks == [] then [] else Emitted(blocks[0], json) + EmittedAll(blocks[1..], json)
  }

  lemma {:induction false} FoldAppend<J, U, P>(a: Assembly<U, P>, x: seq<StreamEvent<J, U>>,
                                               y: seq<StreamEvent<J, U>>, json: Json<J>)
    ensures Fold(a, x + y, json) == Fold(Fold(a, x, json), y, json)
    decreases |x|
  {
    if x == [] {
      assert x + y == y;
    } else {
      assert (x + y)[1..] == x[1..] + y;
      FoldAppend(OnEvent(a, x[0], json), x[1..], y, json);
    }
  }

  lemma {:induction false} FoldTextDeltas<J, U, P>(events: seq<AssistantEvent<U, P>>, parts: seq<string>, json: Json<J>)
    ensures Fold(Assembly(events, None), TextDeltas<J, U>(parts), json) == Assembly(events + SaidAll(parts), None)
    decreases |parts|
  {
    if parts == [] {
      assert events + SaidAll(parts) == events;
    } else {
      var said: seq<AssistantEvent<U, P>> := if parts[0] == "" then [] else [Said(parts[0])];
      assert events + SaidAll(parts) == (events + said) + SaidAll(parts[1..]);
      assert parts[0] == "" ==> events + said == events;
      FoldTextDeltas(events + said, parts[1..], json);
    }
  }

  lemma {:induction false} FoldInputDeltas<J, U, P>(events: seq<AssistantEvent<U, P>>, tool: PendingTool,
                                                    parts: seq<string>, json: Json<J>)
    ensures Fold(Assembly(events, Some(tool)), InputDeltas<J, U>(parts), json)
         == Assembly(events, Some(tool.(input := tool.input + Concat(parts))))
    decreases |parts|
  {
    if parts == [] {
      assert tool.input + Concat(parts) == tool.input;
    } else {
      assert tool.input + Concat(parts) == (tool.input + parts[0]) + Concat(parts[1..]);
      FoldInputDeltas(events, tool.(input := tool.input + parts[0]), parts[1..], json);
    }
  }

  lemma {:induction false} FoldSilentDeltas<J, U, P>(a: Assembly<U, P>, delta: Delta, count: nat, json: Json<J>)
    requires delta.ThinkingDelta? || delta.SignatureDelta?
    ensures Fold(a, SilentDeltas<J, U>(delta, count), json) == a
  {
    if count > 0 {
      FoldSilentDeltas(a, delta, count - 1, json);
    }
  }

  /** A start event, some deltas and a stop event, in terms of what the deltas do. */
  lemma FoldBlock<J, U, P>(a: Assembly<U, P>, start: Block<J>, deltas: seq<StreamEvent<J, U>>, json: Json<J>)
    ensures Fold(a, [ContentBlockStart(start)] + deltas + [ContentBlockStop], json)
         == TakePending(Fold(PushBlock(a, start, true, json), deltas, json))
  {
    FoldAppend(a, [ContentBlockStart(start)] + deltas, [ContentBlockStop], json);
    FoldAppend(a, [ContentBlockStart(start)], deltas, json);
    FoldOne(a, ContentBlockStart(start), json);
    FoldOne(Fold(PushBlock(a, start, true, json), deltas, json), ContentBlockStop, json);
  }

  lemma FoldOne<J, U, P>(a: Assembly<U, P>, event: StreamEvent<J, U>, json: Json<J>)
    ensures Fold(a, [event], json) == OnEvent(a, event, json)
  {
    assert [event][1..] == [];
  }

  lemma FoldStreamed<J, U, P>(events: seq<AssistantEvent<U, P>>, block: Streamed<J>, json: Json<J>)
    ensures Fold(Assembly(events, None), OnWire<J, U>(block), json) == Assembly(events + Emitted(block, json), None)
  {
    var a := Assembly(events, None);
    match block
    case StreamedText(first, parts) =>
      FoldBlock<J, U, P>(a, Text(first), TextDeltas(parts), json);
      var begun := PushBlock(a, Text(first), true, json);
      FoldTextDeltas<J, U, P>(begun.events, parts, json);
      assert ([first] + parts)[1..] == parts;
      assert events + SaidAll([first] + parts) == begun.events + SaidAll(parts);
    case StreamedTool(id, name, start, parts, _) =>
      FoldBlock<J, U, P>(a, ToolUse(id, name, start), InputDeltas(parts), json);
      var initial := if json.isEmptyObject(start) then "" else json.show(start);
      FoldInputDeltas<J, U, P>(events, PendingTool(id, name, initial), parts, json);
    case StreamedThinking(redacted, thoughts, signatures) =>
      var x, y := SilentDeltas<J, U>(ThinkingDelta, thoughts), SilentDeltas<J, U>(SignatureDelta, signatures);
      FoldBlock<J, U, P>(a, if redacted then RedactedThinking else Thinking, x + y, json);
      FoldAppend(a, x, y, json);
      FoldSilentDeltas<J, U, P>(a, ThinkingDelta, thoughts, json);
      FoldSilentDeltas<J, U, P>(a, SignatureDelta, signatures, json);
      assert events + [] == events;
  }

  lemma {:induction false} FoldStreamedAll<J, U, P>(events: seq<AssistantEvent<U, P>>, blocks: seq<Streamed<J>>,
                                                    json: Json<J>)
    ensures Fold(Assembly(events, None), OnWireAll<J, U>(blocks), json)
         == Assembly(events + EmittedAll(blocks, json), None)
    decreases |blocks|
  {
    if blocks == [] {
      assert events + EmittedAll(blocks, json) == events;
    } else {
      var first, rest := Emitted<J, U, P>(blocks[0], json), EmittedAll<J, U, P>(blocks[1..], json);
      var wire, later := OnWire<J, U>(blocks[0]), OnWireAll<J, U>(blocks[1..]);
      FoldAppend(Assembly(events, None), wire, later, json);
      FoldStreamed<J, U, P>(events, blocks[0], json);
      FoldStreamedAll<J, U, P>(events + first, blocks[1..], json);
      Regroup(events, first, rest);
    }
  }

  lemma FoldWellFormed<J, U, P>(blocks: seq<Streamed<J>>, usage: U, json: Json<J>)
    ensures Fold<J, U, P>(Assembly([], None), WellFormed(blocks, usage), json)
         == Assembly(EmittedAll(blocks, json) + [Used(usage), Stopped], None)
  {
    var start: Assembly<U, P> := Assembly([], None);
    var body, tail := OnWireAll<J, U>(blocks), [MessageDelta(usage), MessageStop];
    FoldAppend(start, [MessageStart([])] + body, tail, json);
    FoldAppend(start, [MessageStart([])], body, json);
    FoldOne<J, U, P>(start, MessageStart([]), json);
    FoldStreamedAll<J, U, P>([], blocks, json);
    var emitted := EmittedAll<J, U, P>(blocks, json);
    assert [] + emitted == emitted;
    assert tail == [MessageDelta(usage)] + [MessageStop];
    FoldAppend<J, U, P>(Assembly(emitted, None), [MessageDelta(usage)], [MessageStop], json);
    FoldOne<J, U, P>(Assembly(emitted, None), MessageDelta(usage), json);
    FoldOne<J, U, P>(Assembly(emitted + [Used(usage)], None), MessageStop, json);
    assert emitted + [Used(usage)] + [Stopped] == emitted + [Used(usage), Stopped];
  }

  // ---- Joining adjacent text ----

  function Say<U, P>(text: string, events: seq<AssistantEvent<U, P>>): seq<AssistantEvent<U, P>> {
    if events != [] && events[0].Said? then [Said(text + events[0].text)] + events[1..] else [Said(text)] + events
  }

  /** Adjacent text events become one. */
  function Joined<U, P>(events: seq<AssistantEvent<U, P>>): seq<AssistantEvent<U, P>> {
    if events == [] then []
    else if events[0].Said? then Say(events[0].text, Joined(events[1..]))
    else [events[0]] + Joined(events[1..])
  }

  lemma SaySay<U, P>(s: string, t: string, events: seq<AssistantEvent<U, P>>)
    ensures Say(s, Say(t, events)) == Say(s + t, events)
  {
    if events != [] && events[0].Said? {
      assert s + (t + events[0].text) == (s + t) + events[0].text;
      assert Say(t, events)[1..] == events[1..];
    } else {
      assert Say(t, events)[1..] == events;
    }
  }

  lemma JoinedCons<U, P>(text: string, tail: seq<AssistantEvent<U, P>>)
    ensures Joined([Said(text)] + tail) == Say(text, Joined(tail))
  {
    assert ([Said(text)] + tail)[1..] == tail;
  }

  /** Saying nothing changes nothing. */
  function SayAny<U, P>(text: string, events: seq<AssistantEvent<U, P>>): seq<AssistantEvent<U, P>> {
    if text == "" then events else Say(text, events)
  }

  lemma SaySayAny<U, P>(s: string, t: string, events: seq<AssistantEvent<U, P>>)
    requires s != ""
    ensures Say(s, SayAny(t, events)) == SayAny(s + t, events)
  {
    if t == "" {
      assert s + t == s;
    } else {
      SaySay(s, t, events);
    }
  }

  lemma SaidAllFirst<U, P>(parts: seq<string>, rest: seq<AssistantEvent<U, P>>)
    requires parts != []
    ensures SaidAll(parts) + rest
         == if parts[0] == "" then SaidAll(parts[1..]) + rest else [Said(parts[0])] + (SaidAll(parts[1..]) + rest)
  {
    if parts[0] == "" {
      assert SaidAll<U, P>(parts) == SaidAll(parts[1..]);
    } else {
      Regroup([Said(parts[0])], SaidAll<U, P>(parts[1..]), rest);
    }
  }

  lemma {:induction false} JoinedSaidAll<U, P>(parts: seq<string>, rest: seq<AssistantEvent<U, P>>)
    ensures Joined(SaidAll(parts) + rest) == SayAny(Concat(parts), Joined(rest))
  {
    if parts == [] {
      assert SaidAll(parts) + rest == rest;
    } else {
      JoinedSaidAll(parts[1..], rest);
      SaidAllFirst(parts, rest);
      if parts[0] == "" {
        assert Concat(parts) == Concat(parts[1..]);
      } else {
        JoinedCons(parts[0], SaidAll<U, P>(parts[1..]) + rest);
        SaySayAny(parts[0], Concat(parts[1..]), Joined(rest));
      }
    }
  }

  lemma JoinedText<U, P>(parts: seq<string>, x: seq<AssistantEvent<U, P>>, y: seq<AssistantEvent<U, P>>)
    requires Joined(x) == Joined(y)
    ensures Joined(SaidAll(parts) + x) == Joined((if Concat(parts) == "" then [] else [Said(Concat(parts))]) + y)
  {
    JoinedSaidAll(parts, x);
    var text := Concat(parts);
    if text == "" {
      assert [] + y == y;
    } else {
      assert ([Said(text)] + y)[1..] == y;
    }
  }

  lemma JoinedCall<U, P>(id: string, name: string, input: string, x: seq<AssistantEvent<U, P>>,
                         y: seq<AssistantEvent<U, P>>)
    requires Joined(x) == Joined(y)
    ensures Joined([Called(id, name, input)] + x) == Joined([Called(id, name, input)] + y)
  {
    var call: AssistantEvent<U, P> := Called(id, name, input);
    assert ([call] + x)[1..] == x && ([call] + y)[1..] == y;
  }

  lemma JoinedBlock<J, U, P>(block: Streamed<J>, x: seq<AssistantEvent<U, P>>, y: seq<AssistantEvent<U, P>>,
                             json: Json<J>)
    requires Complete(block, json) && Joined(x) == Joined(y)
    ensures Joined(Emitted(block, json) + x) == Joined(BlockEvent(Assembled(block), json) + y)
  {
    match block
    case StreamedText(first, parts) =>
      JoinedText([first] + parts, x, y);
      assert ([first] + parts)[1..] == parts;
    case StreamedTool(id, name, start, parts, input) =>
      JoinedCall(id, name, json.show(input), x, y);
    case StreamedThinking(_, _, _) =>
      assert [] + x == x && [] + y == y;
  }

  lemma {:induction false} JoinedAgree<J, U, P>(blocks: seq<Streamed<J>>, tail: seq<AssistantEvent<U, P>>,
                                                json: Json<J>)
    requires forall i | 0 <= i < |blocks| :: Complete(blocks[i], json)
    ensures Joined(EmittedAll(blocks, json) + tail) == Joined(BlockEvents(AssembledAll(blocks), json) + tail)
  {
    if blocks != [] {
      JoinedAgree(blocks[1..], tail, json);
      var x, y := EmittedAll<J, U, P>(blocks[1..], json), BlockEvents<J, U, P>(AssembledAll(blocks[1..]), json);
      JoinedBlock(blocks[0], x + tail, y + tail, json);
      assert AssembledAll(blocks)[1..] == AssembledAll(blocks[1..]);
      Regroup(Emitted(blocks[0], json), x, tail);
      Regroup(BlockEvent(Assembled(blocks[0]), json), y, tail);
    }
  }

  // ---- Tool calls survive joining ----

  function Calls<U, P>(events: seq<AssistantEvent<U, P>>): seq<AssistantEvent<U, P>> {
    if events == [] then []
    else (if events[0].Called? then [events[0]] else []) + Calls(events[1..])
  }

  lemma {:induction false} CallsAppend<U, P>(a: seq<AssistantEvent<U, P>>, b: seq<AssistantEvent<U, P>>)
    ensures Calls(a + b) == Calls(a) + Calls(b)
  {
    if a == [] {
      assert a + b == b;
    } else {
      var first := if a[0].Called? then [a[0]] else [];
      assert (a + b)[0] == a[0] && (a + b)[1..] == a[1..] + b;
      CallsAppend(a[1..], b);
      Regroup(first, Calls(a[1..]), Calls(b));
    }
  }

  lemma {:induction false} CallsJoined<U, P>(events: seq<AssistantEvent<U, P>>)
    ensures Calls(Joined(events)) == Calls(events)
  {
    if events != [] {
      var rest := Joined(events[1..]);
      CallsJoined(events[1..]);
      if events[0].Said? {
        CallsSay(events[0].text, rest);
      } else {
        assert ([events[0]] + rest)[1..] == rest;
      }
    }
  }

  lemma CallsSay<U, P>(text: string, events: seq<AssistantEvent<U, P>>)
    ensures Calls(Say(text, events)) == Calls(events)
  {
    if events != [] && events[0].Said? {
      assert Say(text, events)[1..] == events[1..];
    } else {
      assert Say(text, events)[1..] == events;
    }
  }

  lemma {:induction false} CallsSaidAll<U, P>(parts: seq<string>)
    ensures Calls<U, P>(SaidAll(parts)) == []
  {
    if parts != [] {
      CallsSaidAll<U, P>(parts[1..]);
      if parts[0] != "" {
        assert SaidAll<U, P>(parts)[1..] == SaidAll(parts[1..]);
      } else {
        assert SaidAll<U, P>(parts) == SaidAll(parts[1..]);
      }
    }
  }

  lemma CallsOfBlock<J, U, P>(block: Streamed<J>, json: Json<J>)
    ensures Calls<U, P>(Emitted(block, json))
         == if block.StreamedTool?
            then [Called(block.id, block.name, Accumulated(block.start, block.parts, json))]
            else []
    ensures Calls<U, P>(BlockEvent(Assembled(block), json))
         == if block.StreamedTool? then [Called(block.id, block.name, json.show(block.input))] else []
  {
    if block.StreamedText? {
      CallsSaidAll<U, P>([block.first] + block.parts);
    }
  }

  lemma {:induction false} SameCallsComplete<J, U, P>(blocks: seq<Streamed<J>>, json: Json<J>)
    requires Calls<U, P>(EmittedAll(blocks, json)) == Calls(BlockEvents(AssembledAll(blocks), json))
    ensures forall i | 0 <= i < |blocks| :: Complete(blocks[i], json)
  {
    if blocks != [] {
      var x, y := EmittedAll<J, U, P>(blocks[1..], json), BlockEvents<J, U, P>(AssembledAll(blocks[1..]), json);
      assert AssembledAll(blocks)[1..] == AssembledAll(blocks[1..]);
      CallsAppend(Emitted(blocks[0], json), x);
      CallsAppend(BlockEvent(Assembled(blocks[0]), json), y);
      CallsOfBlock<J, U, P>(blocks[0], json);
      SameHeadOrNone(Calls(Emitted<J, U, P>(blocks[0], json)), Calls(x),
                     Calls(BlockEvent<J, U, P>(Assembled(blocks[0]), json)), Calls(y));
      SameCallsComplete<J, U, P>(blocks[1..], json);
    }
  }

  lemma SameHeadOrNone<T>(a: seq<T>, x: seq<T>, b: seq<T>, y: seq<T>)
    requires |a| == |b| && a + x == b + y
    ensures a == b && x == y
  {
    assert a == (a + x)[..|a|] && b == (b + y)[..|b|];
    assert x == (a + x)[|a|..] && y == (b + y)[|b|..];
  }

  // ---- The agreement ----

  /** The stream and the finished response make the same events, up to how text is cut, exactly
      when the deltas of every tool call spell out its serialized input: no call is then lost,
      duplicated, reordered or changed. */
  lemma StreamAgreesWithResponse<J, U, P>(blocks: seq<Streamed<J>>, usage: U, json: Json<J>)
    ensures Joined(Fold<J, U, P>(Assembly([], None), WellFormed(blocks, usage), json).events)
         == Joined(ResponseEvents(Response(AssembledAll(blocks), usage), json))
       <==> forall i | 0 <= i < |blocks| :: Complete(blocks[i], json)
  {
    var tail: seq<AssistantEvent<U, P>> := [Used(usage), Stopped];
    var x, y := EmittedAll<J, U, P>(blocks, json), BlockEvents<J, U, P>(AssembledAll(blocks), json);
    FoldWellFormed<J, U, P>(blocks, usage, json);
    if forall i | 0 <= i < |blocks| :: Complete(blocks[i], json) {
      JoinedAgree(blocks, tail, json);
    } else if Joined(x + tail) == Joined(y + tail) {
      CallsJoined(x + tail);
      CallsJoined(y + tail);
      CallsAppend(x, tail);
      CallsAppend(y, tail);
      SameSuffix(Calls(x), Calls(y), Calls(tail));
      SameCallsComplete<J, U, P>(blocks, json);
      assert false;
    }
  }

  /** The provider does its part: it starts a call as an empty object and streams the text of its input,
      or it starts the call with its input and streams nothing. */
  ghost predicate Sent<J>(block: Streamed<J>, json: Json<J>) {
    block.StreamedTool? ==>
      || (json.isEmptyObject(block.start) && Concat(block.parts) == json.show(block.input))
      || (block.start == block.input && Concat(block.parts) == "")
  }

  /** A call that starts as an empty object and never gets any text. */
  predicate SilentlyEmpty<J>(block: Streamed<J>, json: Json<J>) {
    block.StreamedTool? && json.isEmptyObject(block.start) && Concat(block.parts) == ""
  }

  lemma SentIsComplete<J(!new)>(block: Streamed<J>, json: Json<J>)
    requires (forall x :: json.show(x) != "") && Sent(block, json)
    ensures Complete(block, json) <==> !SilentlyEmpty(block, json)
  {
    if block.StreamedTool? && Concat(block.parts) == "" {
      assert json.show(block.start) + "" == json.show(block.start);
    }
  }

  /** From a provider that does its part, stream and response agree if and only if no call is an empty
      object without any streamed text. */
  lemma AgreesUnlessSilentlyEmpty<J(!new), U, P>(blocks: seq<Streamed<J>>, usage: U, json: Json<J>)
    requires forall x :: json.show(x) != ""
    requires forall i | 0 <= i < |blocks| :: Sent(blocks[i], json)
    ensures Joined(Fold<J, U, P>(Assembly([], None), WellFormed(blocks, usage), json).events)
         == Joined(ResponseEvents(Response(AssembledAll(blocks), usage), json))
       <==> forall i | 0 <= i < |blocks| :: !SilentlyEmpty(blocks[i], json)
  {
    StreamAgreesWithResponse<J, U, P>(blocks, usage, json);
    forall i | 0 <= i < |blocks|
      ensures Complete(blocks[i], json) <==> !SilentlyEmpty(blocks[i], json)
    {
      SentIsComplete(blocks[i], json);
    }
  }

  lemma SameSuffix<T>(a: seq<T>, b: seq<T>, c: seq<T>)
    requires a + c == b + c
    ensures a == b
  {
    assert a == (a + c)[..|a|] && b == (b + c)[..|b|];
  }

  /** Cutting the same blocks into other deltas changes nothing. */
  lemma ResplittingChangesNothing<J, U, P>(a: seq<Streamed<J>>, b: seq<Streamed<J>>, usage: U, json: Json<J>)
    requires AssembledAll(a) == AssembledAll(b)
    requires forall i | 0 <= i < |a| :: Complete(a[i], json)
    requires forall i | 0 <= i < |b| :: Complete(b[i], json)
    ensures Joined(Fold<J, U, P>(Assembly([], None), WellFormed(a, usage), json).events)
         == Joined(Fold<J, U, P>(Assembly([], None), WellFormed(b, usage), json).events)
  {
    StreamAgreesWithResponse<J, U, P>(a, usage, json);
    StreamAgreesWithResponse<J, U, P>(b, usage, json);
  }

  /** For example, a call whose input really is `{}` and streams no delta: the agent loop gets an
      empty text where the response gives `{}`. */
  lemma EmptyObjectDisagrees<J, U, P>(id: string, name: string, empty: J, usage: U, json: Json<J>)
    requires json.isEmptyObject(empty) && json.show(empty) == "{}"
    ensures var blocks := [StreamedTool(id, name, empty, [], empty)];
      Joined(Fold<J, U, P>(Assembly([], None), WellFormed(blocks, usage), json).events)
      != Joined(ResponseEvents(Response(AssembledAll(blocks), usage), json))
  {
    var blocks := [StreamedTool(id, name, empty, [], empty)];
    assert !Complete(blocks[0], json);
    StreamAgreesWithResponse<J, U, P>(blocks, usage, json);
  }
}
