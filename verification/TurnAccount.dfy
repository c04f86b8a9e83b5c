/** What a turn of the agent loop keeps account of: text, tool calls, their results, tokens, the
    histories that the provider gets, and how the turn ends. */
module TurnAccount {
  import opened Wrappers
  import opened Sequences
  import opened TurnLoop

  // ---- What a provider streams ----

  /** Everything but the tool calls. */
  function TextChunks(chunks: seq<Chunk>): seq<Chunk> {
    if chunks == [] then []
    else
      var chunk := chunks[|chunks| - 1];
      TextChunks(chunks[..|chunks| - 1]) + (if chunk.isToolCall && chunk.toolName != "" then [] else [chunk])
  }

  function CallChunks(chunks: seq<Chunk>): seq<Chunk> {
    if chunks == [] then []
    else
      var chunk := chunks[|chunks| - 1];
      CallChunks(chunks[..|chunks| - 1]) + (if chunk.isToolCall && chunk.toolName != "" then [chunk] else [])
  }

  /** The chunks that say anything. */
  function Spoken(chunks: seq<Chunk>): seq<Chunk> {
    if chunks == [] then []
    else
      var chunk := chunks[|chunks| - 1];
      Spoken(chunks[..|chunks| - 1]) + (if chunk.delta == "" then [] else [chunk])
  }

  function Deltas(chunks: seq<Chunk>): string {
    if chunks == [] then "" else Deltas(chunks[..|chunks| - 1]) + chunks[|chunks| - 1].delta
  }

  function InputTokens(chunks: seq<Chunk>): int {
    if chunks == [] then 0 else InputTokens(chunks[..|chunks| - 1]) + chunks[|chunks| - 1].inputTokens
  }

  function OutputTokens(chunks: seq<Chunk>): int {
    if chunks == [] then 0 else OutputTokens(chunks[..|chunks| - 1]) + chunks[|chunks| - 1].outputTokens
  }

  /** All that the provider streamed, and all tools that were run. */
  function Streamed(rounds: seq<Round>): seq<Chunk> {
    if rounds == [] then [] else Streamed(rounds[..|rounds| - 1]) + rounds[|rounds| - 1].stream
  }

  function Executed(rounds: seq<Round>): seq<Execution> {
    if rounds == [] then [] else Executed(rounds[..|rounds| - 1]) + rounds[|rounds| - 1].executed
  }

  // ---- What the history holds ----

  function BlockText(content: seq<ContentBlock>): string {
    if content == [] then ""
    else (if content[0].TextBlock? then content[0].text else "") + BlockText(content[1..])
  }

  /** All text of the assistant messages, in order. */
  function AssistantText(messages: seq<Message>): string {
    if messages == [] then ""
    else (if messages[0].role == Assistant then BlockText(messages[0].content) else "") + AssistantText(messages[1..])
  }

  function BlockCalls(content: seq<ContentBlock>): seq<ToolCall> {
    if content == [] then []
    else
      (if content[0].ToolUseBlock? then [ToolCall(content[0].name, content[0].inputJson, content[0].id)] else [])
      + BlockCalls(content[1..])
  }

  /** All tool calls of the messages, in order. */
  function MessageCalls(messages: seq<Message>): seq<ToolCall> {
    if messages == [] then [] else BlockCalls(messages[0].content) + MessageCalls(messages[1..])
  }

  function BlockResults(content: seq<ContentBlock>): seq<ContentBlock> {
    if content == [] then []
    else (if content[0].ToolResultBlock? then [content[0]] else []) + BlockResults(content[1..])
  }

  /** All tool results of the messages, in order. */
  function MessageResults(messages: seq<Message>): seq<ContentBlock> {
    if messages == [] then [] else BlockResults(messages[0].content) + MessageResults(messages[1..])
  }

  // ---- What is conserved ----

  /** All text reaches the caller, chunk by chunk, and the history. */
  ghost predicate TextKept(trace: Trace) {
    && Spoken(trace.yielded) == Spoken(TextChunks(Streamed(trace.rounds)))
    && AssistantText(trace.added) == Deltas(TextChunks(Streamed(trace.rounds)))
  }

  /** The calls of the executions, one for one. */
  ghost predicate CallsAre(calls: seq<ToolCall>, executed: seq<Execution>) {
    |calls| == |executed| && forall i | 0 <= i < |executed| :: calls[i] == executed[i].call
  }

  /** A call is executed, and kept, for each chunk that asks for one. */
  ghost predicate CallsKept(trace: Trace) {
    && |CallChunks(Streamed(trace.rounds))| == |Executed(trace.rounds)|
    && CallsAre(MessageCalls(trace.added), Executed(trace.rounds))
  }

  /** The block with a tool's answer: its text, and whether that text reports an error. */
  predicate HoldsAnswer(block: ContentBlock, execution: Execution) {
    && block.ToolResultBlock? && block.id == execution.call.id && block.content == execution.result
    && (block.isError <==> "[error]" <= execution.result || "[permission" <= execution.result)
  }

  ghost predicate AnswersAre(blocks: seq<ContentBlock>, executed: seq<Execution>) {
    |blocks| == |executed| && forall i | 0 <= i < |executed| :: HoldsAnswer(blocks[i], executed[i])
  }

  /** Each tool's answer is in the history, in order. */
  ghost predicate ResultsKept(trace: Trace) {
    AnswersAre(MessageResults(trace.added), Executed(trace.rounds))
  }

  ghost predicate TokensKept(trace: Trace) {
    && trace.tokens.input == InputTokens(Streamed(trace.rounds))
    && trace.tokens.output == OutputTokens(Streamed(trace.rounds))
  }

  ghost predicate Conserving(trace: Trace) {
    TextKept(trace) && CallsKept(trace) && ResultsKept(trace) && TokensKept(trace)
  }

  // ---- Putting iterations together ----

  lemma {:induction false} TextChunksAppend(a: seq<Chunk>, b: seq<Chunk>)
    ensures TextChunks(a + b) == TextChunks(a) + TextChunks(b)
  {
    if b == [] {
      assert a + b == a;
    } else {
      assert (a + b)[..|a + b| - 1] == a + b[..|b| - 1];
      TextChunksAppend(a, b[..|b| - 1]);
      Regroup(TextChunks(a), TextChunks(b[..|b| - 1]), TextChunks([b[|b| - 1]]));
      OneTextChunk(b[|b| - 1]);
    }
  }

  lemma OneTextChunk(chunk: Chunk)
    ensures TextChunks([chunk]) == if chunk.isToolCall && chunk.toolName != "" then [] else [chunk]
    ensures CallChunks([chunk]) == if chunk.isToolCall && chunk.toolName != "" then [chunk] else []
    ensures Spoken([chunk]) == if chunk.delta == "" then [] else [chunk]
  {
    assert [chunk][..0] == [];
  }

  lemma {:induction false} CallChunksAppend(a: seq<Chunk>, b: seq<Chunk>)
    ensures CallChunks(a + b) == CallChunks(a) + CallChunks(b)
  {
    if b == [] {
      assert a + b == a;
    } else {
      assert (a + b)[..|a + b| - 1] == a + b[..|b| - 1];
      CallChunksAppend(a, b[..|b| - 1]);
      Regroup(CallChunks(a), CallChunks(b[..|b| - 1]), CallChunks([b[|b| - 1]]));
      OneTextChunk(b[|b| - 1]);
    }
  }

  lemma {:induction false} SpokenAppend(a: seq<Chunk>, b: seq<Chunk>)
    ensures Spoken(a + b) == Spoken(a) + Spoken(b)
  {
    if b == [] {
      assert a + b == a;
    } else {
      assert (a + b)[..|a + b| - 1] == a + b[..|b| - 1];
      SpokenAppend(a, b[..|b| - 1]);
      Regroup(Spoken(a), Spoken(b[..|b| - 1]), Spoken([b[|b| - 1]]));
      OneTextChunk(b[|b| - 1]);
    }
  }

  lemma {:induction false} DeltasAppend(a: seq<Chunk>, b: seq<Chunk>)
    ensures Deltas(a + b) == Deltas(a) + Deltas(b)
  {
    if b == [] {
      assert a + b == a;
    } else {
      assert (a + b)[..|a + b| - 1] == a + b[..|b| - 1];
      DeltasAppend(a, b[..|b| - 1]);
    }
  }

  lemma {:induction false} TokensAppend(a: seq<Chunk>, b: seq<Chunk>)
    ensures InputTokens(a + b) == InputTokens(a) + InputTokens(b)
    ensures OutputTokens(a + b) == OutputTokens(a) + OutputTokens(b)
  {
    if b == [] {
      assert a + b == a;
    } else {
      assert (a + b)[..|a + b| - 1] == a + b[..|b| - 1];
      TokensAppend(a, b[..|b| - 1]);
    }
  }

  lemma RoundsSnoc(rounds: seq<Round>, round: Round)
    ensures Streamed(rounds + [round]) == Streamed(rounds) + round.stream
    ensures Executed(rounds + [round]) == Executed(rounds) + round.executed
  {
    assert (rounds + [round])[..|rounds|] == rounds;
  }

  lemma {:induction false} AssistantTextAppend(a: seq<Message>, b: seq<Message>)
    ensures AssistantText(a + b) == AssistantText(a) + AssistantText(b)
  {
    if a == [] {
      assert a + b == b;
    } else {
      assert (a + b)[1..] == a[1..] + b;
      AssistantTextAppend(a[1..], b);
    }
  }

  lemma {:induction false} MessageCallsAppend(a: seq<Message>, b: seq<Message>)
    ensures MessageCalls(a + b) == MessageCalls(a) + MessageCalls(b)
  {
    if a == [] {
      assert a + b == b;
    } else {
      assert (a + b)[1..] == a[1..] + b;
      MessageCallsAppend(a[1..], b);
    }
  }

  lemma {:induction false} MessageResultsAppend(a: seq<Message>, b: seq<Message>)
    ensures MessageResults(a + b) == MessageResults(a) + MessageResults(b)
  {
    if a == [] {
      assert a + b == b;
    } else {
      assert (a + b)[1..] == a[1..] + b;
      MessageResultsAppend(a[1..], b);
    }
  }

  /** A step as a trace of one round. */
  function Alone(step: Step): Trace {
    Trace(step.added, step.yielded, [step.round], step.tokens)
  }

  lemma AloneRounds(step: Step)
    ensures Streamed([step.round]) == step.round.stream && Executed([step.round]) == step.round.executed
  {
    assert [step.round][..0] == [];
    assert [] + step.round.stream == step.round.stream && [] + step.round.executed == step.round.executed;
  }

  lemma ExtendText(before: Trace, step: Step)
    requires TextKept(before) && TextKept(Alone(step))
    ensures TextKept(Extend(before, step))
  {
    var a, b := Streamed(before.rounds), step.round.stream;
    AloneRounds(step);
    RoundsSnoc(before.rounds, step.round);
    SpokenAppend(before.yielded, step.yielded);
    TextChunksAppend(a, b);
    SpokenAppend(TextChunks(a), TextChunks(b));
    DeltasAppend(TextChunks(a), TextChunks(b));
    AssistantTextAppend(before.added, step.added);
  }

  lemma CallsAreAppend(a: seq<ToolCall>, x: seq<Execution>, b: seq<ToolCall>, y: seq<Execution>)
    requires CallsAre(a, x) && CallsAre(b, y)
    ensures CallsAre(a + b, x + y)
  {}

  lemma AnswersAreAppend(a: seq<ContentBlock>, x: seq<Execution>, b: seq<ContentBlock>, y: seq<Execution>)
    requires AnswersAre(a, x) && AnswersAre(b, y)
    ensures AnswersAre(a + b, x + y)
  {}

  lemma ExtendCalls(before: Trace, step: Step)
    requires CallsKept(before) && CallsKept(Alone(step))
    ensures CallsKept(Extend(before, step))
  {
    AloneRounds(step);
    RoundsSnoc(before.rounds, step.round);
    CallChunksAppend(Streamed(before.rounds), step.round.stream);
    MessageCallsAppend(before.added, step.added);
    CallsAreAppend(MessageCalls(before.added), Executed(before.rounds), MessageCalls(step.added), step.round.executed);
  }

  lemma ExtendResults(before: Trace, step: Step)
    requires ResultsKept(before) && ResultsKept(Alone(step))
    ensures ResultsKept(Extend(before, step))
  {
    AloneRounds(step);
    RoundsSnoc(before.rounds, step.round);
    MessageResultsAppend(before.added, step.added);
    AnswersAreAppend(MessageResults(before.added), Executed(before.rounds),
                     MessageResults(step.added), step.round.executed);
  }

  lemma ExtendTokens(before: Trace, step: Step)
    requires TokensKept(before) && TokensKept(Alone(step))
    ensures TokensKept(Extend(before, step))
  {
    AloneRounds(step);
    RoundsSnoc(before.rounds, step.round);
    TokensAppend(Streamed(before.rounds), step.round.stream);
  }

  lemma ExtendConserves(before: Trace, step: Step)
    requires Conserving(before) && Conserving(Alone(step))
    ensures Conserving(Extend(before, step))
  {
    ExtendText(before, step);
    ExtendCalls(before, step);
    ExtendResults(before, step);
    ExtendTokens(before, step);
  }

  // ---- One iteration ----

  lemma {:induction false} YieldsAreSpoken(chunks: seq<Chunk>)
    ensures YieldsOf(chunks) == Spoken(TextChunks(chunks))
    ensures Spoken(YieldsOf(chunks)) == YieldsOf(chunks)
  {
    if chunks != [] {
      var n := |chunks| - 1;
      YieldsAreSpoken(chunks[..n]);
      var text, yielded := TextChunks(chunks[..n]), YieldsOf(chunks[..n]);
      assert text + [] == text && yielded + [] == yielded;
      assert (text + [chunks[n]])[..|text|] == text && (yielded + [chunks[n]])[..|yielded|] == yielded;
    }
  }

  lemma {:induction false} TextIsDeltas(chunks: seq<Chunk>)
    ensures TextOf(chunks) == Deltas(TextChunks(chunks))
  {
    if chunks != [] {
      var last := |chunks| - 1;
      TextIsDeltas(chunks[..last]);
      var before := TextChunks(chunks[..last]);
      assert before + [] == before && TextOf(chunks[..last]) + "" == TextOf(chunks[..last]);
      assert (before + [chunks[last]])[..|before|] == before;
    }
  }

  lemma {:induction false} TokensAreSums(chunks: seq<Chunk>)
    ensures TokensOf(chunks) == Tokens(InputTokens(chunks), OutputTokens(chunks))
  {
    if chunks != [] {
      TokensAreSums(chunks[..|chunks| - 1]);
    }
  }

  /** The call that a chunk asks for: its own input and id wherever it has them, else an empty object
      and an id made of the number of the iteration. */
  predicate AsksFor(chunk: Chunk, call: ToolCall, iteration: nat) {
    && call.name == chunk.toolName
    && call.inputJson == (if chunk.toolInputJson == "" then "{}" else chunk.toolInputJson)
    && call.id == (if chunk.toolUseId == "" then "use-" + Decimal(iteration) else chunk.toolUseId)
  }

  /** The number that a text of decimal digits stands for. */
  function Value(digits: string): int {
    if digits == "" then 0 else 10 * Value(digits[..|digits| - 1]) + (digits[|digits| - 1] as int - '0' as int)
  }

  /** Different iterations make different ids. */
  lemma {:induction false} DecimalReads(n: nat)
    ensures Value(Decimal(n)) == n
  {
    if n < 10 {
      assert Decimal(n)[..0] == "";
    } else {
      DecimalReads(n / 10);
      assert Decimal(n)[..|Decimal(n)| - 1] == Decimal(n / 10);
    }
  }

  lemma {:induction false} CallsOfMatch(chunks: seq<Chunk>, iteration: nat)
    ensures |CallsOf(chunks, iteration)| == |CallChunks(chunks)|
    ensures forall i | 0 <= i < |CallChunks(chunks)| ::
      AsksFor(CallChunks(chunks)[i], CallsOf(chunks, iteration)[i], iteration)
  {
    if chunks != [] {
      CallsOfMatch(chunks[..|chunks| - 1], iteration);
    }
  }

  lemma {:induction false} UseBlocksContent(calls: seq<ToolCall>)
    ensures BlockText(UseBlocks(calls)) == "" && BlockCalls(UseBlocks(calls)) == calls
    ensures BlockResults(UseBlocks(calls)) == []
  {
    if calls != [] {
      UseBlocksContent(calls[1..]);
      assert UseBlocks(calls)[1..] == UseBlocks(calls[1..]);
      assert calls == [calls[0]] + calls[1..];
    }
  }

  lemma {:induction false} ResultsContent(content: seq<ContentBlock>)
    requires forall i | 0 <= i < |content| :: content[i].ToolResultBlock?
    ensures BlockCalls(content) == [] && BlockText(content) == "" && BlockResults(content) == content
  {
    if content != [] {
      ResultsContent(content[1..]);
      assert content == [content[0]] + content[1..];
    }
  }

  lemma SaidBlocks(text: string, calls: seq<ToolCall>)
    ensures var blocks := (if text == "" then [] else [TextBlock(text)]) + UseBlocks(calls);
      BlockText(blocks) == text && BlockCalls(blocks) == calls && BlockResults(blocks) == []
  {
    UseBlocksContent(calls);
    var uses := UseBlocks(calls);
    if text == "" {
      assert [] + uses == uses;
    } else {
      assert ([TextBlock(text)] + uses)[1..] == uses;
    }
  }

  lemma OneMessage(message: Message)
    ensures AssistantText([message]) == if message.role == Assistant then BlockText(message.content) else ""
    ensures MessageCalls([message]) == BlockCalls(message.content)
    ensures MessageResults([message]) == BlockResults(message.content)
  {
    assert [message][1..] == [];
    assert BlockText(message.content) + "" == BlockText(message.content);
    assert BlockCalls(message.content) + [] == BlockCalls(message.content);
    assert BlockResults(message.content) + [] == BlockResults(message.content);
  }

  lemma SaidContent(text: string, calls: seq<ToolCall>)
    ensures AssistantText(AssistantMessages(text, calls)) == text
    ensures MessageCalls(AssistantMessages(text, calls)) == calls
    ensures MessageResults(AssistantMessages(text, calls)) == []
  {
    var blocks := (if text == "" then [] else [TextBlock(text)]) + UseBlocks(calls);
    SaidBlocks(text, calls);
    if blocks != [] {
      OneMessage(Message(Assistant, blocks));
    }
  }

  lemma AnsweredContent(said: seq<Message>, results: seq<ContentBlock>)
    requires MessageResults(said) == [] && forall i | 0 <= i < |results| :: results[i].ToolResultBlock?
    ensures AssistantText(said + [Message(User, results)]) == AssistantText(said)
    ensures MessageCalls(said + [Message(User, results)]) == MessageCalls(said)
    ensures MessageResults(said + [Message(User, results)]) == results
  {
    var answer := [Message(User, results)];
    AssistantTextAppend(said, answer);
    MessageCallsAppend(said, answer);
    MessageResultsAppend(said, answer);
    ResultsContent(results);
    OneMessage(Message(User, results));
    assert [] + results == results;
  }

  lemma SpokenThenStop(yielded: seq<Chunk>, reason: string)
    ensures Spoken(yielded + [StopChunk("", reason)]) == Spoken(yielded)
  {
    SpokenAppend(yielded, [StopChunk("", reason)]);
    OneTextChunk(StopChunk("", reason));
  }

  /** What an iteration adds to the history. */
  lemma IterationContent(history: seq<Message>, n: nat, provider: Provider, execute: Executor)
    ensures var step, chunks := Iteration(history, n, provider, execute), provider(n, history);
      && AssistantText(step.added) == TextOf(chunks)
      && MessageCalls(step.added) == CallsOf(chunks, n)
      && MessageResults(step.added) == ResultBlocks(CallsOf(chunks, n), n, execute)
  {
    var chunks := provider(n, history);
    var calls := CallsOf(chunks, n);
    SaidContent(TextOf(chunks), calls);
    if calls != [] {
      AnsweredContent(AssistantMessages(TextOf(chunks), calls), ResultBlocks(calls, n, execute));
    }
  }

  lemma IterationText(history: seq<Message>, n: nat, provider: Provider, execute: Executor)
    ensures TextKept(Alone(Iteration(history, n, provider, execute)))
  {
    var step, chunks := Iteration(history, n, provider, execute), provider(n, history);
    AloneRounds(step);
    YieldsAreSpoken(chunks);
    TextIsDeltas(chunks);
    SpokenThenStop(YieldsOf(chunks), StopOf(chunks));
    IterationContent(history, n, provider, execute);
  }

  lemma ExecutionsMatch(calls: seq<ToolCall>, n: nat, execute: Executor)
    ensures CallsAre(calls, Executions(calls, n, execute))
    ensures AnswersAre(ResultBlocks(calls, n, execute), Executions(calls, n, execute))
  {}

  lemma IterationCalls(history: seq<Message>, n: nat, provider: Provider, execute: Executor)
    ensures CallsKept(Alone(Iteration(history, n, provider, execute)))
    ensures ResultsKept(Alone(Iteration(history, n, provider, execute)))
  {
    var chunks := provider(n, history);
    AloneRounds(Iteration(history, n, provider, execute));
    CallsOfMatch(chunks, n);
    ExecutionsMatch(CallsOf(chunks, n), n, execute);
    IterationContent(history, n, provider, execute);
  }

  lemma IterationConserves(history: seq<Message>, n: nat, provider: Provider, execute: Executor)
    ensures Conserving(Alone(Iteration(history, n, provider, execute)))
  {
    IterationText(history, n, provider, execute);
    IterationCalls(history, n, provider, execute);
    AloneRounds(Iteration(history, n, provider, execute));
    TokensAreSums(provider(n, history));
  }

  lemma IterationsConserve(history: seq<Message>, k: nat, provider: Provider, execute: Executor)
    ensures Conserving(Iterations(history, k, Steps(provider, execute)).trace)
  {
    var step := Steps(provider, execute);
    forall before: Trace, h: seq<Message>, n: nat | Conserving(before)
      ensures Conserving(Extend(before, step(h, n)))
    {
      IterationConserves(h, n, provider, execute);
      ExtendConserves(before, step(h, n));
    }
    IterationsKeep(history, k, step, trace => Conserving(trace));
  }

  // ---- What the provider and the tools were asked ----

  /** The `n`-th round: the provider streamed what it did for the history it got, and the tools that it
      asked for were run in order, each call answered by what the tool returned for it. */
  ghost predicate TrueRound(round: Round, n: nat, provider: Provider, execute: Executor) {
    && round.stream == provider(n, round.history)
    && |round.executed| == |CallChunks(round.stream)|
    && forall k | 0 <= k < |round.executed| ::
         && AsksFor(CallChunks(round.stream)[k], round.executed[k].call, n)
         && round.executed[k].result == execute(n, k, round.executed[k].call)
  }

  lemma IterationTrue(history: seq<Message>, n: nat, provider: Provider, execute: Executor)
    ensures TrueRound(Iteration(history, n, provider, execute).round, n, provider, execute)
  {
    CallsOfMatch(provider(n, history), n);
  }

  /** A step keeps its history as given; if it ran tools, it added the call and the answer. */
  ghost predicate GoodStep(step: Step, h: seq<Message>, n: nat, provider: Provider, execute: Executor) {
    && step.round.history == h && TrueRound(step.round, n, provider, execute)
    && (if step.round.executed == [] then |step.added| <= 1 else |step.added| == 2)
  }

  ghost predicate GoodStepper(step: Stepper, provider: Provider, execute: Executor) {
    forall h, n :: GoodStep(step(h, n), h, n, provider, execute)
  }

  lemma StepsAreGood(provider: Provider, execute: Executor)
    ensures GoodStepper(Steps(provider, execute), provider, execute)
  {
    forall h: seq<Message>, n: nat
      ensures GoodStep(Steps(provider, execute)(h, n), h, n, provider, execute)
    {
      IterationTrue(h, n, provider, execute);
    }
  }

  /** Round `i` got the history as it was then, with the calls and the answers of all rounds before. */
  ghost predicate RoundAt(rounds: seq<Round>, i: nat, history: seq<Message>, added: seq<Message>,
                          provider: Provider, execute: Executor)
    requires i < |rounds|
  {
    && TrueRound(rounds[i], i + 1, provider, execute)
    && rounds[i].history <= history + added
    && |rounds[i].history| == |history| + 2 * i
    && (i < |rounds| - 1 ==> rounds[i].executed != [])
  }

  ghost predicate Rounds(progress: Progress, k: nat, history: seq<Message>, provider: Provider, execute: Executor) {
    var rounds := progress.trace.rounds;
    && |rounds| <= k && |progress.trace.added| <= 2 * |rounds|
    && (forall i | 0 <= i < |rounds| ::
          RoundAt(rounds, i, history, progress.trace.added, provider, execute))
    && if progress.finished then rounds != [] && rounds[|rounds| - 1].executed == []
       else |rounds| == k && |progress.trace.added| == 2 * k && forall i | 0 <= i < k :: rounds[i].executed != []
  }

  lemma RoundsExtend(before: Progress, k: nat, history: seq<Message>, step: Step, provider: Provider, execute: Executor)
    requires Rounds(before, k, history, provider, execute) && !before.finished
    requires GoodStep(step, history + before.trace.added, k + 1, provider, execute)
    ensures Rounds(Progress(Extend(before.trace, step), step.round.executed == []), k + 1, history, provider, execute)
  {
    var after := Extend(before.trace, step);
    Regroup(history, before.trace.added, step.added);
    forall i | 0 <= i < |after.rounds|
      ensures RoundAt(after.rounds, i, history, after.added, provider, execute)
    {
      if i < k {
        assert RoundAt(before.trace.rounds, i, history, before.trace.added, provider, execute);
        assert after.rounds[i] == before.trace.rounds[i];
      }
    }
  }

  lemma RoundsMore(progress: Progress, k: nat, history: seq<Message>, provider: Provider, execute: Executor)
    requires Rounds(progress, k, history, provider, execute) && progress.finished
    ensures Rounds(progress, k + 1, history, provider, execute)
  {}

  lemma {:induction false} IterationsAreRounds(history: seq<Message>, k: nat, step: Stepper, provider: Provider,
                                               execute: Executor)
    requires GoodStepper(step, provider, execute)
    ensures Rounds(Iterations(history, k, step), k, history, provider, execute)
    decreases k
  {
    if k > 0 {
      IterationsAreRounds(history, k - 1, step, provider, execute);
      var before := Iterations(history, k - 1, step);
      if before.finished {
        RoundsMore(before, k - 1, history, provider, execute);
      } else {
        assert GoodStep(step(history + before.trace.added, k), history + before.trace.added, k, provider, execute);
        RoundsExtend(before, k - 1, history, step(history + before.trace.added, k), provider, execute);
      }
    }
  }

  // ---- How a turn ends ----

  predicate GivesReason(chunk: Chunk) {
    chunk.stopReason.Some? && chunk.stopReason.value != ""
  }

  /** Chunk `i` gives the reason, and no later one gives any. */
  ghost predicate IsLastReason(chunks: seq<Chunk>, i: nat, reason: string) {
    && i < |chunks| && GivesReason(chunks[i]) && reason == chunks[i].stopReason.value
    && forall j | i < j < |chunks| :: !GivesReason(chunks[j])
  }

  /** The last reason that the provider gave, or else `end_turn`. */
  ghost predicate ReasonOf(chunks: seq<Chunk>, reason: string) {
    || (exists i :: IsLastReason(chunks, i, reason))
    || (reason == "end_turn" && forall i | 0 <= i < |chunks| :: !GivesReason(chunks[i]))
  }

  lemma {:induction false} StopIsLast(chunks: seq<Chunk>)
    ensures ReasonOf(chunks, StopOf(chunks))
  {
    if chunks != [] {
      var n := |chunks| - 1;
      if GivesReason(chunks[n]) {
        assert IsLastReason(chunks, n, StopOf(chunks));
      } else {
        StopIsLast(chunks[..n]);
        if i :| IsLastReason(chunks[..n], i, StopOf(chunks)) {
          assert IsLastReason(chunks, i, StopOf(chunks));
        }
      }
    }
  }

  ghost predicate AllText(yielded: seq<Chunk>) {
    forall i | 0 <= i < |yielded| :: yielded[i].delta != ""
  }

  /** Text, and then one chunk that says nothing but why the last stream stopped. */
  ghost predicate Closes(yielded: seq<Chunk>, stream: seq<Chunk>) {
    yielded != [] && AllText(yielded[..|yielded| - 1])
    && var last := yielded[|yielded| - 1];
    && last.stopReason.Some? && ReasonOf(stream, last.stopReason.value)
    && last == Chunk("", "", "", "", false, 0, 0, last.stopReason)
  }

  /** A step without tools closes the turn; one with tools yields text only. */
  ghost predicate EndsOrGoesOn(step: Step) {
    if step.round.executed == [] then Closes(step.yielded, step.round.stream) else AllText(step.yielded)
  }

  ghost predicate EndingStepper(step: Stepper) {
    forall h, n :: EndsOrGoesOn(step(h, n))
  }

  lemma {:induction false} YieldsAreText(chunks: seq<Chunk>)
    ensures AllText(YieldsOf(chunks))
  {
    if chunks != [] {
      YieldsAreText(chunks[..|chunks| - 1]);
    }
  }

  lemma StepsEnd(provider: Provider, execute: Executor)
    ensures EndingStepper(Steps(provider, execute))
  {
    forall h: seq<Message>, n: nat
      ensures EndsOrGoesOn(Steps(provider, execute)(h, n))
    {
      var chunks := provider(n, h);
      YieldsAreText(chunks);
      StopIsLast(chunks);
      var yielded := YieldsOf(chunks);
      assert (yielded + [StopChunk("", StopOf(chunks))])[..|yielded|] == yielded;
    }
  }

  lemma AllTextThen(a: seq<Chunk>, b: seq<Chunk>, stream: seq<Chunk>)
    requires AllText(a)
    ensures AllText(b) ==> AllText(a + b)
    ensures Closes(b, stream) ==> Closes(a + b, stream)
  {
    if Closes(b, stream) {
      assert (a + b)[..|a + b| - 1] == a + b[..|b| - 1];
    }
  }

  lemma {:induction false} IterationsEnd(history: seq<Message>, k: nat, step: Stepper)
    requires EndingStepper(step)
    ensures var progress := Iterations(history, k, step);
      var rounds := progress.trace.rounds;
      if progress.finished then rounds != [] && Closes(progress.trace.yielded, rounds[|rounds| - 1].stream)
      else AllText(progress.trace.yielded)
    decreases k
  {
    if k > 0 {
      IterationsEnd(history, k - 1, step);
      var before := Iterations(history, k - 1, step);
      if !before.finished {
        var next := step(history + before.trace.added, k);
        assert EndsOrGoesOn(next);
        AllTextThen(before.trace.yielded, next.yielded, next.round.stream);
      }
    }
  }

  // ---- The turn ----

  lemma QuestionConserves(userInput: string, trace: Trace)
    requires Conserving(trace)
    ensures Conserving(trace.(added := [Message(User, [TextBlock(userInput)])] + trace.added))
  {
    var asked := Message(User, [TextBlock(userInput)]);
    AssistantTextAppend([asked], trace.added);
    MessageCallsAppend([asked], trace.added);
    MessageResultsAppend([asked], trace.added);
    OneMessage(asked);
    assert asked.content[1..] == [];
    assert "" + AssistantText(trace.added) == AssistantText(trace.added);
    assert [] + MessageCalls(trace.added) == MessageCalls(trace.added);
    assert [] + MessageResults(trace.added) == MessageResults(trace.added);
  }

  /** A turn below the limit adds the question first, and conserves text, tool calls, their results and
      tokens. */
  lemma TurnConserves(s: Session, userInput: string, config: Config, provider: Provider, execute: Executor)
    requires s.turnCount < config.maxTurns
    ensures var trace := TurnTrace(s, userInput, config, provider, execute);
      && trace.added != [] && trace.added[0] == Message(User, [TextBlock(userInput)])
      && Conserving(trace)
  {
    var asked := Message(User, [TextBlock(userInput)]);
    var inner := Iterations(s.history + [asked], MAX_ITERATIONS, Steps(provider, execute)).trace;
    IterationsConserve(s.history + [asked], MAX_ITERATIONS, provider, execute);
    QuestionConserves(userInput, inner);
    assert TurnTrace(s, userInput, config, provider, execute) == inner.(added := [asked] + inner.added);
  }

  ghost predicate TextFirst(messages: seq<Message>) {
    forall i, j | 0 <= i < |messages| && 0 < j < |messages[i].content| :: !messages[i].content[j].TextBlock?
  }

  /** In every message the text comes first. */
  lemma TurnTextFirst(s: Session, userInput: string, config: Config, provider: Provider, execute: Executor)
    ensures TextFirst(TurnTrace(s, userInput, config, provider, execute).added)
  {
    var asked := Message(User, [TextBlock(userInput)]);
    var step := Steps(provider, execute);
    IterationsKeep(s.history + [asked], MAX_ITERATIONS, step, (trace: Trace) => TextFirst(trace.added));
  }

  /** The rounds of a turn below the limit, at most 16 with at most 33 new messages: each provider call
      gets the history so far, with the calls and answers of all rounds before; each tool call is run in
      the order in which it was streamed and answered by what the tool returned; and all rounds but the
      last run tools. */
  lemma TurnRounds(s: Session, userInput: string, config: Config, provider: Provider, execute: Executor)
    requires s.turnCount < config.maxTurns
    ensures var trace := TurnTrace(s, userInput, config, provider, execute);
      && 1 <= |trace.rounds| <= 16 && |trace.added| <= 33
      && forall i | 0 <= i < |trace.rounds| ::
           && TrueRound(trace.rounds[i], i + 1, provider, execute)
           && trace.rounds[i].history <= s.history + trace.added
           && |trace.rounds[i].history| == |s.history| + 1 + 2 * i
           && (i < |trace.rounds| - 1 ==> trace.rounds[i].executed != [])
  {
    var asked := Message(User, [TextBlock(userInput)]);
    var start := s.history + [asked];
    var progress := Iterations(start, MAX_ITERATIONS, Steps(provider, execute));
    StepsAreGood(provider, execute);
    IterationsAreRounds(start, MAX_ITERATIONS, Steps(provider, execute), provider, execute);
    Regroup(s.history, [asked], progress.trace.added);
    var trace := TurnTrace(s, userInput, config, provider, execute);
    assert trace == progress.trace.(added := [asked] + progress.trace.added);
    assert start + progress.trace.added == s.history + trace.added;
    forall i | 0 <= i < |trace.rounds|
      ensures TrueRound(trace.rounds[i], i + 1, provider, execute)
      ensures trace.rounds[i].history <= s.history + trace.added
      ensures |trace.rounds[i].history| == |s.history| + 1 + 2 * i
      ensures i < |trace.rounds| - 1 ==> trace.rounds[i].executed != []
    {
      assert RoundAt(progress.trace.rounds, i, start, progress.trace.added, provider, execute);
    }
  }

  /** How it ends: when the last round asked for no tool, the caller gets text and then one chunk that
      gives the reason of the last stream; otherwise text only, and all 16 rounds are used up. */
  lemma TurnEnds(s: Session, userInput: string, config: Config, provider: Provider, execute: Executor)
    requires s.turnCount < config.maxTurns
    ensures var trace := TurnTrace(s, userInput, config, provider, execute);
      && trace.rounds != []
      && var last := trace.rounds[|trace.rounds| - 1];
      if last.executed == [] then Closes(trace.yielded, last.stream)
      else AllText(trace.yielded) && |trace.rounds| == 16
  {
    var start := s.history + [Message(User, [TextBlock(userInput)])];
    StepsAreGood(provider, execute);
    IterationsAreRounds(start, MAX_ITERATIONS, Steps(provider, execute), provider, execute);
    StepsEnd(provider, execute);
    IterationsEnd(start, MAX_ITERATIONS, Steps(provider, execute));
    var progress := Iterations(start, MAX_ITERATIONS, Steps(provider, execute));
    var rounds := progress.trace.rounds;
    assert Rounds(progress, MAX_ITERATIONS, start, provider, execute);
    if !progress.finished {
      assert |rounds| == 16 && rounds[15].executed != [];
    }
  }

  /** At the turn limit nothing happens, and the caller is told so. */
  lemma TurnAtLimit(s: Session, userInput: string, config: Config, provider: Provider, execute: Executor)
    requires s.turnCount >= config.maxTurns && config.compactAfter != 0
    ensures AfterTurn(s, userInput, config, provider, execute) == s
    ensures var trace := TurnTrace(s, userInput, config, provider, execute);
      && trace.rounds == [] && trace.added == [] && |trace.yielded| == 1
      && trace.yielded[0].delta == "[turn limit reached — start a new session]"
      && trace.yielded[0].stopReason == Some("max_turns")
  {}
}
