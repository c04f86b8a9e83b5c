/** What a streamed request answers when the stream breaks, ends early, or goes off its form. */
module StreamEndings {
  import opened Wrappers
  import opened Sequences
  import opened StreamAssembly

  /** A block that leaves something to show: a tool call, or any text. */
  predicate Speaks<J>(block: Streamed<J>) {
    block.StreamedTool? || (block.StreamedText? && block.first + Concat(block.parts) != "")
  }

  function Recorded<U, P>(record: Option<P>): seq<AssistantEvent<U, P>> {
    if record.None? then [] else [CacheBreak(record.value)]
  }

  // ---- What the blocks emit ----

  lemma {:induction false} SaidAllContent<U, P>(parts: seq<string>)
    ensures !HasStop<U, P>(SaidAll(parts))
    ensures HasContent<U, P>(SaidAll(parts)) <==> Concat(parts) != ""
  {
    if parts != [] {
      SaidAllContent<U, P>(parts[1..]);
      var first: seq<AssistantEvent<U, P>> := if parts[0] == "" then [] else [Said(parts[0])];
      ContentOfBoth(first, SaidAll(parts[1..]));
      if parts[0] != "" {
        assert first[0].Said? && first[0].text != "";
      }
    }
  }

  lemma ContentOfBoth<U, P>(a: seq<AssistantEvent<U, P>>, b: seq<AssistantEvent<U, P>>)
    ensures HasStop(a + b) <==> HasStop(a) || HasStop(b)
    ensures HasContent(a + b) <==> HasContent(a) || HasContent(b)
  {
    assert forall i | 0 <= i < |a| :: (a + b)[i] == a[i];
    assert forall i | 0 <= i < |b| :: (a + b)[|a| + i] == b[i];
  }

  lemma EmittedContent<J, U, P>(block: Streamed<J>, json: Json<J>)
    ensures !HasStop<U, P>(Emitted(block, json))
    ensures HasContent<U, P>(Emitted(block, json)) <==> Speaks(block)
  {
    match block
    case StreamedText(first, parts) =>
      SaidAllContent<U, P>([first] + parts);
      assert ([first] + parts)[1..] == parts;
    case StreamedTool(id, name, start, parts, _) =>
      assert Emitted<J, U, P>(block, json)[0].Called?;
    case StreamedThinking(_, _, _) =>
  }

  lemma {:induction false} EmittedAllContent<J, U, P>(blocks: seq<Streamed<J>>, json: Json<J>)
    ensures !HasStop<U, P>(EmittedAll(blocks, json))
    ensures HasContent<U, P>(EmittedAll(blocks, json)) <==> exists i | 0 <= i < |blocks| :: Speaks(blocks[i])
  {
    if blocks != [] {
      EmittedAllContent<J, U, P>(blocks[1..], json);
      EmittedContent<J, U, P>(blocks[0], json);
      ContentOfBoth<U, P>(Emitted(blocks[0], json), EmittedAll(blocks[1..], json));
      assert forall i | 0 < i < |blocks| :: blocks[i] == blocks[1..][i - 1];
    }
  }

  lemma RecordAdds<U, P>(events: seq<AssistantEvent<U, P>>, record: Option<P>)
    ensures WithCacheRecord(events, record) == events + Recorded(record)
    ensures HasStop(events + Recorded(record)) <==> HasStop(events)
    ensures HasContent(events + Recorded(record)) <==> HasContent(events)
  {
    assert events + [] == events;
    ContentOfBoth(events, Recorded(record));
  }

  lemma StartAndBlocks<J, U, P>(blocks: seq<Streamed<J>>, json: Json<J>)
    ensures Fold<J, U, P>(Assembly([], None), [MessageStart([])] + OnWireAll(blocks), json)
         == Assembly(EmittedAll(blocks, json), None)
  {
    var start: Assembly<U, P> := Assembly([], None);
    FoldAppend(start, [MessageStart([])], OnWireAll<J, U>(blocks), json);
    FoldOne<J, U, P>(start, MessageStart([]), json);
    FoldStreamedAll<J, U, P>([], blocks, json);
    assert [] + EmittedAll<J, U, P>(blocks, json) == EmittedAll(blocks, json);
  }

  // ---- How a request ends ----

  /** The answer to a stream that ended after some events without a stop among them. */
  lemma UnstoppedResult<J, U, P, X>(
    stream: seq<StreamEvent<J, U>>, events: seq<AssistantEvent<U, P>>, record: Option<P>,
    unstreamed: Result<Response<J, U>, X>, unstreamedRecord: Option<P>, json: Json<J>)
    requires Fold<J, U, P>(Assembly([], None), stream, json).events == events && !HasStop(events)
    ensures StreamResult(stream, EndOfStream, record, unstreamed, unstreamedRecord, json)
         == if HasContent(events) then Success(events + Recorded(record) + [Stopped])
            else if unstreamed.Failure? then Failure(unstreamed.error)
            else Success(ResponseEvents(unstreamed.value, json) + Recorded(unstreamedRecord))
  {
    RecordAdds(events, record);
    if unstreamed.Success? {
      RecordAdds(ResponseEvents(unstreamed.value, json), unstreamedRecord);
    }
  }

  /** A stream of whole blocks that ends without a stop: if any block is a tool call or has text, the
      answer is what was streamed, with a stop added, and the request is not repeated; otherwise it is
      the answer, or the error, of the repeated request. */
  lemma UnfinishedStream<J, U, P, X>(
    blocks: seq<Streamed<J>>, record: Option<P>,
    unstreamed: Result<Response<J, U>, X>, unstreamedRecord: Option<P>, json: Json<J>)
    ensures StreamResult([MessageStart([])] + OnWireAll(blocks), EndOfStream, record,
                         unstreamed, unstreamedRecord, json)
         == if exists i | 0 <= i < |blocks| :: Speaks(blocks[i])
            then Success(EmittedAll(blocks, json) + Recorded(record) + [Stopped])
            else if unstreamed.Failure? then Failure(unstreamed.error)
            else Success(BlockEvents(unstreamed.value.content, json) + [Used(unstreamed.value.usage), Stopped]
                         + Recorded(unstreamedRecord))
  {
    StartAndBlocks<J, U, P>(blocks, json);
    EmittedAllContent<J, U, P>(blocks, json);
    UnstoppedResult<J, U, P, X>([MessageStart([])] + OnWireAll(blocks), EmittedAll(blocks, json), record,
                                unstreamed, unstreamedRecord, json);
  }

  /** A tool call whose block never stops is not handed over. */
  lemma UnstoppedCall<J, U, P>(blocks: seq<Streamed<J>>, id: string, name: string, start: J, parts: seq<string>,
                               json: Json<J>)
    ensures Fold<J, U, P>(Assembly([], None),
                          [MessageStart([])] + OnWireAll(blocks)
                          + ([ContentBlockStart(ToolUse(id, name, start))] + InputDeltas(parts)), json).events
         == EmittedAll(blocks, json)
  {
    var emitted := EmittedAll<J, U, P>(blocks, json);
    var block := ToolUse(id, name, start);
    StartAndBlocks<J, U, P>(blocks, json);
    FoldAppend<J, U, P>(Assembly([], None), [MessageStart([])] + OnWireAll(blocks),
                        [ContentBlockStart(block)] + InputDeltas(parts), json);
    FoldAppend<J, U, P>(Assembly(emitted, None), [ContentBlockStart(block)], InputDeltas(parts), json);
    FoldOne<J, U, P>(Assembly(emitted, None), ContentBlockStart(block), json);
    var initial := if json.isEmptyObject(start) then "" else json.show(start);
    FoldInputDeltas<J, U, P>(emitted, PendingTool(id, name, initial), parts, json);
  }

  /** A finished stream answers what was streamed. */
  lemma FinishedStream<J, U, P, X>(
    blocks: seq<Streamed<J>>, usage: U, record: Option<P>,
    unstreamed: Result<Response<J, U>, X>, unstreamedRecord: Option<P>, json: Json<J>)
    ensures StreamResult(WellFormed(blocks, usage), EndOfStream, record, unstreamed, unstreamedRecord, json)
         == Success(EmittedAll(blocks, json) + [Used(usage), Stopped] + Recorded(record))
  {
    var events: seq<AssistantEvent<U, P>> := EmittedAll(blocks, json) + [Used(usage), Stopped];
    FoldWellFormed<J, U, P>(blocks, usage, json);
    RecordAdds(events, record);
    assert events[|events| - 1].Stopped?;
  }

  /** A broken stream always answers its error. */
  lemma BrokenStream<J, U, P, X>(
    stream: seq<StreamEvent<J, U>>, error: X, record: Option<P>,
    unstreamed: Result<Response<J, U>, X>, unstreamedRecord: Option<P>, json: Json<J>)
    ensures StreamResult(stream, Broken(error), record, unstreamed, unstreamedRecord, json) == Failure(error)
  {}

  // ---- Events out of place ----

  function Starts<J, U>(blocks: seq<Block<J>>): seq<StreamEvent<J, U>> {
    if blocks == [] then [] else [ContentBlockStart(blocks[0])] + Starts(blocks[1..])
  }

  /** Blocks in the message start are as good as blocks that start after it. */
  lemma {:induction false} BlocksInMessageStart<J, U, P>(a: Assembly<U, P>, blocks: seq<Block<J>>, json: Json<J>)
    ensures Fold(a, [MessageStart(blocks)], json) == Fold(a, Starts<J, U>(blocks), json)
    decreases |blocks|
  {
    FoldOne<J, U, P>(a, MessageStart(blocks), json);
    if blocks != [] {
      var next := PushBlock(a, blocks[0], true, json);
      BlocksInMessageStart<J, U, P>(next, blocks[1..], json);
      FoldOne<J, U, P>(next, MessageStart(blocks[1..]), json);
      FoldAppend<J, U, P>(a, [ContentBlockStart(blocks[0])], Starts(blocks[1..]), json);
      FoldOne<J, U, P>(a, ContentBlockStart(blocks[0]), json);
    }
  }

  /** Without a pending tool call, input deltas and block stops change nothing; text is told at once, and
      empty text not at all, whether or not a call is pending. */
  lemma StrayEvents<J, U, P>(events: seq<AssistantEvent<U, P>>, pending: Option<PendingTool>, text: string,
                             json: Json<J>)
    ensures Fold<J, U, P>(Assembly(events, None), [ContentBlockDelta(InputJsonDelta(text))], json)
         == Assembly(events, None)
    ensures Fold<J, U, P>(Assembly(events, None), [ContentBlockStop], json) == Assembly(events, None)
    ensures Fold<J, U, P>(Assembly(events, pending), [ContentBlockDelta(TextDelta(text))], json)
         == Assembly(if text == "" then events else events + [Said(text)], pending)
  {
    FoldOne<J, U, P>(Assembly(events, None), ContentBlockDelta(InputJsonDelta(text)), json);
    FoldOne<J, U, P>(Assembly(events, None), ContentBlockStop, json);
    FoldOne<J, U, P>(Assembly(events, pending), ContentBlockDelta(TextDelta(text)), json);
  }
}
