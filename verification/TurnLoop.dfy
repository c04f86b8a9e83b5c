/** The agent turn loop with its tool calls, and the compaction of its history. */
module TurnLoop {
  import opened Wrappers
  import opened Text
  import opened Sequences

  const MAX_ITERATIONS: nat := 16
  const PRESERVE_RECENT: nat := 4

  datatype Chunk = Chunk(
    delta: string, toolName: string, toolInputJson: string, toolUseId: string, isToolCall: bool,
    inputTokens: int, outputTokens: int, stopReason: Option<string>)

  datatype ContentBlock =
    | TextBlock(text: string)
    | ToolUseBlock(id: string, name: string, inputJson: string)
    | ToolResultBlock(id: string, content: string, isError: bool)

  datatype Role = User | Assistant

  datatype Message = Message(role: Role, content: seq<ContentBlock>)

  datatype ToolCall = ToolCall(name: string, inputJson: string, id: string)

  /** What the provider streams on its `n`-th call of a turn, given the history. */
  type Provider = (nat, seq<Message>) -> seq<Chunk>

  /** What executing the `k`-th tool call of the `n`-th iteration returns. */
  type Executor = (nat, nat, ToolCall) -> string

  // ---- Reading one provider stream ----

  predicate IsCall(chunk: Chunk) {
    chunk.isToolCall && chunk.toolName != ""
  }

  function Decimal(n: nat): string {
    if n < 10 then ["0123456789"[n]] else Decimal(n / 10) + ["0123456789"[n % 10]]
  }

  function CallOf(chunk: Chunk, iteration: nat): ToolCall {
    ToolCall(chunk.toolName,
             if chunk.toolInputJson == "" then "{}" else chunk.toolInputJson,
             if chunk.toolUseId == "" then "use-" + Decimal(iteration) else chunk.toolUseId)
  }

  function CallsOf(chunks: seq<Chunk>, iteration: nat): seq<ToolCall> {
    if chunks == [] then []
    else
      var last := |chunks| - 1;
      CallsOf(chunks[..last], iteration) + (if IsCall(chunks[last]) then [CallOf(chunks[last], iteration)] else [])
  }

  function TextOf(chunks: seq<Chunk>): string {
    if chunks == [] then ""
    else
      var last := |chunks| - 1;
      TextOf(chunks[..last]) + (if IsCall(chunks[last]) then "" else chunks[last].delta)
  }

  function YieldsOf(chunks: seq<Chunk>): seq<Chunk> {
    if chunks == [] then []
    else
      var last := |chunks| - 1;
      YieldsOf(chunks[..last]) + (if IsCall(chunks[last]) || chunks[last].delta == "" then [] else [chunks[last]])
  }

  function StopOf(chunks: seq<Chunk>): string {
    if chunks == [] then "end_turn"
    else
      var last := |chunks| - 1;
      if chunks[last].stopReason.Some? && chunks[last].stopReason.value != "" then chunks[last].stopReason.value
      else StopOf(chunks[..last])
  }

  datatype Tokens = Tokens(input: int, output: int)
  {
    function Plus(more: Tokens): Tokens {
      Tokens(input + more.input, output + more.output)
    }
  }

  function TokensOf(chunks: seq<Chunk>): Tokens {
    if chunks == [] then Tokens(0, 0)
    else
      var last := |chunks| - 1;
      TokensOf(chunks[..last]).Plus(Tokens(chunks[last].inputTokens, chunks[last].outputTokens))
  }

  // ---- One turn ----

  function StopChunk(delta: string, reason: string): Chunk {
    Chunk(delta, "", "", "", false, 0, 0, Some(reason))
  }

  function UseBlocks(calls: seq<ToolCall>): (r: seq<ContentBlock>)
    ensures |r| == |calls|
    ensures forall i | 0 <= i < |r| :: r[i] == ToolUseBlock(calls[i].id, calls[i].name, calls[i].inputJson)
  {
    seq(|calls|, i requires 0 <= i < |calls| => ToolUseBlock(calls[i].id, calls[i].name, calls[i].inputJson))
  }

  function ResultBlock(call: ToolCall, result: string): ContentBlock {
    ToolResultBlock(call.id, result, StartsWith(result, "[error]") || StartsWith(result, "[permission"))
  }

  function ResultBlocks(calls: seq<ToolCall>, iteration: nat, execute: Executor): (r: seq<ContentBlock>)
    ensures |r| == |calls|
    ensures forall i | 0 <= i < |r| :: r[i] == ResultBlock(calls[i], execute(iteration, i, calls[i]))
  {
    seq(|calls|, i requires 0 <= i < |calls| => ResultBlock(calls[i], execute(iteration, i, calls[i])))
  }

  /** At most one assistant message: text first, then the calls. */
  function AssistantMessages(text: string, calls: seq<ToolCall>): seq<Message> {
    var blocks := (if text == "" then [] else [TextBlock(text)]) + UseBlocks(calls);
    if blocks == [] then [] else [Message(Assistant, blocks)]
  }

  /** One call of a tool, and the text it returned. */
  datatype Execution = Execution(call: ToolCall, result: string)

  /** One iteration: the history that the provider got, what it streamed, and the tools run for it. */
  datatype Round = Round(history: seq<Message>, stream: seq<Chunk>, executed: seq<Execution>)

  /** What one iteration does, and what several do. */
  datatype Step = Step(added: seq<Message>, yielded: seq<Chunk>, round: Round, tokens: Tokens)

  datatype Trace = Trace(added: seq<Message>, yielded: seq<Chunk>, rounds: seq<Round>, tokens: Tokens)

  const NOTHING_DONE := Trace([], [], [], Tokens(0, 0))

  function Extend(before: Trace, step: Step): Trace {
    Trace(before.added + step.added, before.yielded + step.yielded, before.rounds + [step.round],
          before.tokens.Plus(step.tokens))
  }

  function Executions(calls: seq<ToolCall>, iteration: nat, execute: Executor): (r: seq<Execution>)
    ensures |r| == |calls|
    ensures forall i | 0 <= i < |r| :: r[i] == Execution(calls[i], execute(iteration, i, calls[i]))
  {
    seq(|calls|, i requires 0 <= i < |calls| => Execution(calls[i], execute(iteration, i, calls[i])))
  }

  /** One provider call and the tool calls it asks for. Without tool calls the turn is over. */
  function Iteration(history: seq<Message>, n: nat, provider: Provider, execute: Executor): Step {
    var chunks := provider(n, history);
    var calls := CallsOf(chunks, n);
    var said := AssistantMessages(TextOf(chunks), calls);
    var round := Round(history, chunks, Executions(calls, n, execute));
    if calls == [] then
      Step(said, YieldsOf(chunks) + [StopChunk("", StopOf(chunks))], round, TokensOf(chunks))
    else
      Step(said + [Message(User, ResultBlocks(calls, n, execute))], YieldsOf(chunks), round, TokensOf(chunks))
  }

  datatype Progress = Progress(trace: Trace, finished: bool)

  /** What the `n`-th iteration does from a given history on. */
  type Stepper = (seq<Message>, nat) -> Step

  function Steps(provider: Provider, execute: Executor): Stepper {
    (history: seq<Message>, n: nat) => Iteration(history, n, provider, execute)
  }

  /** The first `k` iterations of a turn, or fewer once one of them finished it. */
  function Iterations(history: seq<Message>, k: nat, step: Stepper): Progress
    decreases k, |history|
  {
    if k == 0 then Progress(NOTHING_DONE, false)
    else
      var before := Iterations(history, k - 1, step);
      if before.finished then before
      else
        var next := step(history + before.trace.added, k);
        Progress(Extend(before.trace, next), next.round.executed == [])
  }

  // ---- Compaction ----

  function TextsOf(content: seq<ContentBlock>): seq<string> {
    if content == [] then []
    else (if content[0].TextBlock? then [content[0].text] else []) + TextsOf(content[1..])
  }

  function AllTexts(messages: seq<Message>): seq<string> {
    if messages == [] then [] else TextsOf(messages[0].content) + AllTexts(messages[1..])
  }

  function Summary(earlier: seq<Message>): string {
    var all := Join(AllTexts(earlier), " ");
    if |all| > 160 then all[..157] + "..." else all
  }

  function Compacted(history: seq<Message>): seq<Message> {
    if |history| <= PRESERVE_RECENT then history
    else
      var cut := |history| - PRESERVE_RECENT;
      [Message(User, [TextBlock("[compacted context: " + Summary(history[..cut]) + "]")])] + history[cut..]
  }

  // ---- The session ----

  datatype Session = Session(history: seq<Message>, turnCount: int, compactions: nat, tokens: Tokens)

  datatype Config = Config(maxTurns: int, compactAfter: int)

  function MaybeCompacted(s: Session, config: Config): Session
    requires config.compactAfter != 0
  {
    if s.turnCount > 0 && s.turnCount % config.compactAfter == 0 && |s.history| > PRESERVE_RECENT then
      s.(history := Compacted(s.history), compactions := s.compactions + 1)
    else s
  }

  function TurnTrace(s: Session, userInput: string, config: Config, provider: Provider, execute: Executor): Trace {
    if s.turnCount >= config.maxTurns then
      NOTHING_DONE.(yielded := [StopChunk("[turn limit reached — start a new session]", "max_turns")])
    else
      var asked := Message(User, [TextBlock(userInput)]);
      var trace := Iterations(s.history + [asked], MAX_ITERATIONS, Steps(provider, execute)).trace;
      trace.(added := [asked] + trace.added)
  }

  function AfterTurn(s: Session, userInput: string, config: Config, provider: Provider, execute: Executor): Session
    requires config.compactAfter != 0
  {
    if s.turnCount >= config.maxTurns then s
    else
      var trace := TurnTrace(s, userInput, config, provider, execute);
      var after := Session(s.history + trace.added, s.turnCount + 1, s.compactions, s.tokens.Plus(trace.tokens));
      MaybeCompacted(after, config)
  }

  function Cleared(s: Session): Session {
    s.(history := [], turnCount := 0)
  }

  // ---- The code ----

  method ReadStream(chunks: seq<Chunk>, iteration: nat)
    returns (text: string, calls: seq<ToolCall>, stop: string, yielded: seq<Chunk>, tokens: Tokens)
    ensures text == TextOf(chunks) && calls == CallsOf(chunks, iteration) && stop == StopOf(chunks)
    ensures yielded == YieldsOf(chunks) && tokens == TokensOf(chunks)
  {
    text, calls, stop, yielded, tokens := "", [], "end_turn", [], Tokens(0, 0);
    for i := 0 to |chunks|
      invariant text == TextOf(chunks[..i]) && calls == CallsOf(chunks[..i], iteration)
      invariant stop == StopOf(chunks[..i]) && yielded == YieldsOf(chunks[..i]) && tokens == TokensOf(chunks[..i])
    {
      var chunk := chunks[i];
      assert chunks[..i + 1][..i] == chunks[..i];
      tokens := tokens.Plus(Tokens(chunk.inputTokens, chunk.outputTokens));
      if chunk.stopReason.Some? && chunk.stopReason.value != "" {
        stop := chunk.stopReason.value;
      }
      if chunk.isToolCall && chunk.toolName != "" {
        calls := calls + [CallOf(chunk, iteration)];
      } else {
        text := text + chunk.delta;
        if chunk.delta != "" {
          yielded := yielded + [chunk];
        }
      }
    }
    assert chunks[..|chunks|] == chunks;
  }

  /** The loop over the collected calls; `log` lists the calls of the executor, as they are made. */
  method ExecuteCalls(calls: seq<ToolCall>, iteration: nat, execute: Executor)
    returns (blocks: seq<ContentBlock>, log: seq<Execution>)
    ensures blocks == ResultBlocks(calls, iteration, execute) && log == Executions(calls, iteration, execute)
    ensures |blocks| == |calls| && forall i | 0 <= i < |calls| ::
      var result := execute(iteration, i, calls[i]);
      blocks[i] == ToolResultBlock(calls[i].id, result, "[error]" <= result || "[permission" <= result)
  {
    blocks, log := [], [];
    for i := 0 to |calls|
      invariant |blocks| == |log| == i
      invariant forall k | 0 <= k < i :: blocks[k] == ResultBlock(calls[k], execute(iteration, k, calls[k]))
      invariant forall k | 0 <= k < i :: log[k] == Execution(calls[k], execute(iteration, k, calls[k]))
    {
      var result := execute(iteration, i, calls[i]);
      log := log + [Execution(calls[i], result)];
      blocks := blocks + [ResultBlock(calls[i], result)];
    }
  }

  class ConversationRuntime {
    const config: Config
    var history: seq<Message>
    var turnCount: int
    var compactionCount: nat
    var tokens: Tokens

    constructor (config: Config)
      ensures this.config == config && State() == Session([], 0, 0, Tokens(0, 0))
    {
      this.config := config;
      history, turnCount, compactionCount, tokens := [], 0, 0, Tokens(0, 0);
    }

    ghost function State(): Session
      reads this
    {
      Session(history, turnCount, compactionCount, tokens)
    }

    method ClearHistory()
      modifies this
      ensures State() == Cleared(old(State()))
      ensures history == [] && turnCount == 0
      ensures compactionCount == old(compactionCount) && tokens == old(tokens)
    {
      history := [];
      turnCount := 0;
    }

    method CompactHistory()
      modifies this
      ensures history == Compacted(old(history))
      ensures compactionCount == old(compactionCount) + (if |old(history)| > PRESERVE_RECENT then 1 else 0)
      ensures turnCount == old(turnCount) && tokens == old(tokens)
    {
      if |history| <= PRESERVE_RECENT {
        return;
      }
      var cut := |history| - PRESERVE_RECENT;
      var summary := Summary(history[..cut]);
      history := [Message(User, [TextBlock("[compacted context: " + summary + "]")])] + history[cut..];
      compactionCount := compactionCount + 1;
    }

    method MaybeCompact()
      requires config.compactAfter != 0
      modifies this
      ensures State() == MaybeCompacted(old(State()), config)
    {
      if turnCount > 0 && turnCount % config.compactAfter == 0 {
        CompactHistory();
      }
    }

    /** `_run_turn`, run to completion; `rounds` logs the calls of the provider and the tools as they
        are made. */
    method RunTurn(userInput: string, provider: Provider, execute: Executor)
      returns (yielded: seq<Chunk>, rounds: seq<Round>)
      requires config.compactAfter != 0
      modifies this
      ensures State() == AfterTurn(old(State()), userInput, config, provider, execute)
      ensures var trace := TurnTrace(old(State()), userInput, config, provider, execute);
        yielded == trace.yielded && rounds == trace.rounds
    {
      if turnCount >= config.maxTurns {
        return [StopChunk("[turn limit reached — start a new session]", "max_turns")], [];
      }
      ghost var before, asked := State(), Message(User, [TextBlock(userInput)]);
      history := history + [Message(User, [TextBlock(userInput)])];
      ghost var trace;
      trace, yielded, rounds := RunIterations(provider, execute);
      Regroup(before.history, [asked], trace.added);
      turnCount := turnCount + 1;
      assert TurnTrace(before, userInput, config, provider, execute) == trace.(added := [asked] + trace.added);
      assert State() == Session(before.history + ([asked] + trace.added), before.turnCount + 1,
                                before.compactions, before.tokens.Plus(trace.tokens));
      MaybeCompact();
    }

    /** The body of the loop. */
    method RunIteration(n: nat, provider: Provider, execute: Executor)
      returns (ghost step: Step, yielded: seq<Chunk>, round: Round)
      modifies this`history, this`tokens
      ensures step == Iteration(old(history), n, provider, execute)
      ensures history == old(history) + step.added && tokens == old(tokens).Plus(step.tokens)
      ensures yielded == step.yielded && round == step.round
    {
      step := Iteration(history, n, provider, execute);
      var given, chunks := history, provider(n, history);
      var text, calls, stop, streamed, spent := ReadStream(chunks, n);
      tokens := tokens.Plus(spent);
      var said := AssistantMessages(text, calls);
      if calls == [] {
        history := history + said;
        return step, streamed + [StopChunk("", stop)], Round(given, chunks, []);
      }
      var results, log := ExecuteCalls(calls, n, execute);
      history := history + (said + [Message(User, results)]);
      return step, streamed, Round(given, chunks, log);
    }

    /** The loop of `_run_turn`. */
    method RunIterations(provider: Provider, execute: Executor)
      returns (ghost trace: Trace, yielded: seq<Chunk>, rounds: seq<Round>)
      modifies this`history, this`tokens
      ensures trace == Iterations(old(history), MAX_ITERATIONS, Steps(provider, execute)).trace
      ensures history == old(history) + trace.added && tokens == old(tokens).Plus(trace.tokens)
      ensures yielded == trace.yielded && rounds == trace.rounds
    {
      ghost var start := history;
      trace := NOTHING_DONE;
      yielded, rounds := [], [];
      var iterations := 0;
      while iterations < MAX_ITERATIONS
        invariant iterations <= MAX_ITERATIONS
        invariant Progress(trace, false) == Iterations(start, iterations, Steps(provider, execute))
        invariant history == start + trace.added && tokens == old(tokens).Plus(trace.tokens)
        invariant yielded == trace.yielded && rounds == trace.rounds
      {
        iterations := iterations + 1;
        ghost var step;
        var streamed, round;
        step, streamed, round := RunIteration(iterations, provider, execute);
        Regroup(start, trace.added, step.added);
        trace := Extend(trace, step);
        assert Iterations(start, iterations, Steps(provider, execute)) == Progress(trace, round.executed == []);
        yielded, rounds := yielded + streamed, rounds + [round];
        if round.executed == [] {
          FinishedStays(start, iterations, MAX_ITERATIONS, Steps(provider, execute));
          return;
        }
      }
    }
  }

  /** Induction over the iterations of a turn. */
  lemma {:induction false} IterationsKeep(history: seq<Message>, k: nat, step: Stepper, good: Trace -> bool)
    requires good(NOTHING_DONE)
    requires forall before: Trace, h: seq<Message>, n: nat {:trigger Extend(before, step(h, n))} ::
      good(before) ==> good(Extend(before, step(h, n)))
    ensures good(Iterations(history, k, step).trace)
    decreases k
  {
    if k > 0 {
      IterationsKeep(history, k - 1, step, good);
    }
  }

  lemma {:induction false} FinishedStays(history: seq<Message>, k: nat, n: nat, step: Stepper)
    requires k <= n && Iterations(history, k, step).finished
    ensures Iterations(history, n, step) == Iterations(history, k, step)
    decreases n
  {
    if k < n {
      FinishedStays(history, k, n - 1, step);
    }
  }
}
