/** Tool calls and their results in the history of the turn loop, over every run. */
module ToolPairing {
  import opened Wrappers
  import opened TurnLoop

  // ---- Tool calls and their results stay together ----

  function UseIds(content: seq<ContentBlock>): seq<string> {
    if content == [] then []
    else (if content[0].ToolUseBlock? then [content[0].id] else []) + UseIds(content[1..])
  }

  function ResultIds(content: seq<ContentBlock>): seq<string> {
    if content == [] then []
    else (if content[0].ToolResultBlock? then [content[0].id] else []) + ResultIds(content[1..])
  }

  /** Message `i + 1` answers the tool calls of message `i`. */
  ghost predicate Answered(history: seq<Message>, i: nat)
    requires i < |history|
  {
    && i + 1 < |history|
    && history[i + 1].role == User
    && ResultIds(history[i + 1].content) == UseIds(history[i].content)
  }

  /** Each assistant message with tool calls is immediately followed by a user message with results
      for the same ids, in the same order. */
  ghost predicate Paired(history: seq<Message>) {
    forall i | 0 <= i < |history| ::
      history[i].role == Assistant && UseIds(history[i].content) != [] ==> Answered(history, i)
  }

  lemma PairedAppend(a: seq<Message>, b: seq<Message>)
    requires Paired(a) && Paired(b)
    ensures Paired(a + b)
  {
    var all := a + b;
    forall i | 0 <= i < |all| && all[i].role == Assistant && UseIds(all[i].content) != []
      ensures Answered(all, i)
    {
      if i < |a| {
        assert Answered(a, i);
      } else {
        assert b[i - |a|] == all[i];
        assert Answered(b, i - |a|);
      }
    }
  }

  lemma {:induction false} UseBlocksIds(calls: seq<ToolCall>, results: seq<ContentBlock>)
    requires |results| == |calls|
    requires forall i | 0 <= i < |calls| :: results[i].ToolResultBlock? && results[i].id == calls[i].id
    ensures UseIds(UseBlocks(calls)) == ResultIds(results)
  {
    if calls != [] {
      UseBlocksIds(calls[1..], results[1..]);
      assert UseBlocks(calls)[1..] == UseBlocks(calls[1..]);
    }
  }

  lemma SaidIds(text: string, calls: seq<ToolCall>)
    ensures forall i | 0 <= i < |AssistantMessages(text, calls)| ::
      UseIds(AssistantMessages(text, calls)[i].content) == UseIds(UseBlocks(calls))
  {
    var uses, blocks := UseBlocks(calls), (if text == "" then [] else [TextBlock(text)]) + UseBlocks(calls);
    if text == "" {
      assert blocks == uses;
    } else {
      assert blocks[1..] == uses;
    }
  }

  lemma IterationPaired(history: seq<Message>, n: nat, provider: Provider, execute: Executor)
    ensures Paired(Iteration(history, n, provider, execute).added)
  {
    var chunks := provider(n, history);
    var calls := CallsOf(chunks, n);
    SaidIds(TextOf(chunks), calls);
    UseBlocksIds(calls, ResultBlocks(calls, n, execute));
    var added := Iteration(history, n, provider, execute).added;
    if calls != [] {
      assert |added| == 2;
      assert Answered(added, 0);
    } else {
      assert UseBlocks(calls) == [];
    }
  }

  lemma IterationsPaired(history: seq<Message>, k: nat, provider: Provider, execute: Executor)
    ensures Paired(Iterations(history, k, Steps(provider, execute)).trace.added)
  {
    var step := Steps(provider, execute);
    forall before: Trace, h: seq<Message>, n: nat | Paired(before.added)
      ensures Paired(Extend(before, step(h, n)).added)
    {
      IterationPaired(h, n, provider, execute);
      PairedAppend(before.added, step(h, n).added);
    }
    IterationsKeep(history, k, step, (trace: Trace) => Paired(trace.added));
  }

  lemma CompactedPaired(history: seq<Message>)
    requires Paired(history)
    ensures Paired(Compacted(history))
  {
    if |history| > PRESERVE_RECENT {
      var cut := |history| - PRESERVE_RECENT;
      var recent := history[cut..];
      forall i | 0 <= i < |recent| && recent[i].role == Assistant && UseIds(recent[i].content) != []
        ensures Answered(recent, i)
      {
        assert recent[i] == history[cut + i];
        assert Answered(history, cut + i);
      }
      PairedAppend([Compacted(history)[0]], recent);
    }
  }

  // ---- The other direction ----

  /** Message `i` holds no tool results, or immediately follows the assistant message that made the calls. */
  ghost predicate FollowsCalls(history: seq<Message>, i: nat)
    requires i < |history|
  {
    ResultIds(history[i].content) != [] ==>
      i > 0 && history[i - 1].role == Assistant && UseIds(history[i - 1].content) == ResultIds(history[i].content)
  }

  ghost predicate Grounded(history: seq<Message>) {
    forall i | 0 <= i < |history| :: FollowsCalls(history, i)
  }

  /** Every message follows its calls, except perhaps the one behind the first. */
  ghost predicate NearlyGrounded(history: seq<Message>) {
    forall i | 0 <= i < |history| && i != 1 :: FollowsCalls(history, i)
  }

  lemma SummaryIsText(history: seq<Message>)
    requires |history| > PRESERVE_RECENT
    ensures UseIds(Compacted(history)[0].content) == [] && ResultIds(Compacted(history)[0].content) == []
  {
    assert Compacted(history)[0].content[1..] == [];
  }

  lemma CompactedFollows(history: seq<Message>, i: nat)
    requires |history| > PRESERVE_RECENT && 2 <= i < |Compacted(history)|
    ensures FollowsCalls(Compacted(history), i) <==> FollowsCalls(history, |history| - PRESERVE_RECENT + i - 1)
  {
    var cut := |history| - PRESERVE_RECENT;
    assert Compacted(history)[i] == history[cut + i - 1] && Compacted(history)[i - 1] == history[cut + i - 2];
  }

  lemma CompactedNearlyGrounded(history: seq<Message>)
    requires NearlyGrounded(history)
    ensures NearlyGrounded(Compacted(history))
  {
    if |history| > PRESERVE_RECENT {
      SummaryIsText(history);
      forall i | 2 <= i < |Compacted(history)|
        ensures FollowsCalls(Compacted(history), i)
      {
        CompactedFollows(history, i);
      }
    }
  }

  /** Results without their calls are what compaction can leave at the head of the history: it
      does so exactly when the oldest message it keeps holds tool results. */
  lemma CompactionGrounded(history: seq<Message>)
    requires NearlyGrounded(history) && |history| > PRESERVE_RECENT
    ensures Grounded(Compacted(history))
       <==> ResultIds(history[|history| - PRESERVE_RECENT].content) == []
  {
    assert Compacted(history)[1] == history[|history| - PRESERVE_RECENT];
    CompactedNearlyGrounded(history);
    SummaryIsText(history);
    assert FollowsCalls(Compacted(history), 1) <==> ResultIds(Compacted(history)[1].content) == [];
  }

  lemma GroundedAppend(a: seq<Message>, b: seq<Message>)
    requires NearlyGrounded(a) && Grounded(b)
    ensures NearlyGrounded(a + b)
    ensures Grounded(a) ==> Grounded(a + b)
  {
    var all := a + b;
    forall i | 0 <= i < |all|
      ensures i != 1 || Grounded(a) || |a| <= i ==> FollowsCalls(all, i)
    {
      if i >= |a| {
        assert FollowsCalls(b, i - |a|);
      } else if i != 1 || Grounded(a) {
        assert FollowsCalls(a, i);
      }
    }
  }

  lemma {:induction false} NoResults(content: seq<ContentBlock>)
    requires forall i | 0 <= i < |content| :: !content[i].ToolResultBlock?
    ensures ResultIds(content) == []
  {
    if content != [] {
      NoResults(content[1..]);
    }
  }

  lemma IterationGrounded(history: seq<Message>, n: nat, provider: Provider, execute: Executor)
    ensures Grounded(Iteration(history, n, provider, execute).added)
  {
    var chunks := provider(n, history);
    var calls := CallsOf(chunks, n);
    var said := AssistantMessages(TextOf(chunks), calls);
    var added := Iteration(history, n, provider, execute).added;
    SaidIds(TextOf(chunks), calls);
    UseBlocksIds(calls, ResultBlocks(calls, n, execute));
    if said != [] {
      NoResults(said[0].content);
      assert FollowsCalls(added, 0);
    }
    if calls != [] {
      assert FollowsCalls(added, 1);
    }
  }

  lemma IterationsGrounded(history: seq<Message>, k: nat, provider: Provider, execute: Executor)
    ensures Grounded(Iterations(history, k, Steps(provider, execute)).trace.added)
  {
    var step := Steps(provider, execute);
    forall before: Trace, h: seq<Message>, n: nat | Grounded(before.added)
      ensures Grounded(Extend(before, step(h, n)).added)
    {
      IterationGrounded(h, n, provider, execute);
      GroundedAppend(before.added, step(h, n).added);
    }
    IterationsKeep(history, k, step, (trace: Trace) => Grounded(trace.added));
  }

  // ---- Every run ----

  datatype Op =
    | Turn(userInput: string, provider: Provider, execute: Executor)
    | Clear
    | Compact

  ghost function After(s: Session, op: Op, config: Config): Session
    requires config.compactAfter != 0
  {
    match op
    case Turn(userInput, provider, execute) => AfterTurn(s, userInput, config, provider, execute)
    case Clear => Cleared(s)
    case Compact =>
      if |s.history| > PRESERVE_RECENT then s.(history := Compacted(s.history), compactions := s.compactions + 1) else s
  }

  ghost function AfterAll(ops: seq<Op>, config: Config): Session
    requires config.compactAfter != 0
  {
    if ops == [] then Session([], 0, 0, Tokens(0, 0))
    else After(AfterAll(ops[..|ops| - 1], config), ops[|ops| - 1], config)
  }

  function TurnsSinceClear(ops: seq<Op>): nat {
    if ops == [] then 0
    else
      match ops[|ops| - 1]
      case Turn(_, _, _) => TurnsSinceClear(ops[..|ops| - 1]) + 1
      case Clear => 0
      case Compact => TurnsSinceClear(ops[..|ops| - 1])
  }

  /** The turn count is the number of turns since the session was last cleared, up to the limit. */
  lemma {:induction false} EveryRunCounts(ops: seq<Op>, config: Config)
    requires config.compactAfter != 0
    ensures var turns, limit := TurnsSinceClear(ops), if config.maxTurns < 0 then 0 else config.maxTurns;
      AfterAll(ops, config).turnCount == if turns < limit then turns else limit
  {
    if ops != [] {
      EveryRunCounts(ops[..|ops| - 1], config);
    }
  }

  lemma AfterTurnPaired(s: Session, userInput: string, config: Config, provider: Provider, execute: Executor)
    requires config.compactAfter != 0 && Paired(s.history)
    ensures Paired(AfterTurn(s, userInput, config, provider, execute).history)
  {
    if s.turnCount < config.maxTurns {
      var asked := [Message(User, [TextBlock(userInput)])];
      IterationsPaired(s.history + asked, MAX_ITERATIONS, provider, execute);
      var inner := Iterations(s.history + asked, MAX_ITERATIONS, Steps(provider, execute)).trace.added;
      PairedAppend(asked, inner);
      PairedAppend(s.history, asked + inner);
      CompactedPaired(s.history + (asked + inner));
    }
  }

  /** After any mix of turns, clears and compactions, over any provider and any tools: calls and
      results are paired, and the turn count is within the limit. */
  lemma {:induction false} EveryRunPaired(ops: seq<Op>, config: Config)
    requires config.compactAfter != 0
    ensures var s := AfterAll(ops, config);
      Paired(s.history) && 0 <= s.turnCount && (s.turnCount <= config.maxTurns || s.turnCount == 0)
  {
    if ops != [] {
      var before, op := AfterAll(ops[..|ops| - 1], config), ops[|ops| - 1];
      EveryRunPaired(ops[..|ops| - 1], config);
      match op
      case Turn(userInput, provider, execute) => AfterTurnPaired(before, userInput, config, provider, execute);
      case Clear =>
      case Compact => CompactedPaired(before.history);
    }
  }

  lemma AfterTurnNearlyGrounded(s: Session, userInput: string, config: Config, provider: Provider, execute: Executor)
    requires config.compactAfter != 0 && NearlyGrounded(s.history)
    ensures NearlyGrounded(AfterTurn(s, userInput, config, provider, execute).history)
  {
    if s.turnCount < config.maxTurns {
      var asked := [Message(User, [TextBlock(userInput)])];
      IterationsGrounded(s.history + asked, MAX_ITERATIONS, provider, execute);
      var inner := Iterations(s.history + asked, MAX_ITERATIONS, Steps(provider, execute)).trace.added;
      NoResults(asked[0].content);
      GroundedAppend(asked, inner);
      GroundedAppend(s.history, asked + inner);
      CompactedNearlyGrounded(s.history + (asked + inner));
    }
  }

  /** After any mix of turns, clears and compactions: results immediately follow their calls everywhere
      but behind the first message, the only place where compaction can have cut the calls off. */
  lemma {:induction false} EveryRunNearlyGrounded(ops: seq<Op>, config: Config)
    requires config.compactAfter != 0
    ensures NearlyGrounded(AfterAll(ops, config).history)
  {
    if ops != [] {
      var before, op := AfterAll(ops[..|ops| - 1], config), ops[|ops| - 1];
      EveryRunNearlyGrounded(ops[..|ops| - 1], config);
      match op
      case Turn(userInput, provider, execute) => AfterTurnNearlyGrounded(before, userInput, config, provider, execute);
      case Clear =>
      case Compact => CompactedNearlyGrounded(before.history);
    }
  }

  // ---- A run that cuts results off from their calls ----

  /** Asks for a tool in the first two iterations and answers in the third. */
  function TwiceThenAnswer(): Provider {
    (n: nat, history: seq<Message>) =>
      if n <= 2 then [Chunk("", "ls", "", "call", true, 0, 0, None)] else [Chunk("done", "", "", "", false, 0, 0, None)]
  }

  lemma OneChunk(chunk: Chunk, iteration: nat)
    ensures CallsOf([chunk], iteration) == if IsCall(chunk) then [CallOf(chunk, iteration)] else []
    ensures TextOf([chunk]) == if IsCall(chunk) then "" else chunk.delta
  {
    assert [chunk][..0] == [];
  }

  ghost predicate CallsTool(step: Step) {
    step.round.executed != [] && |step.added| == 2 && ResultIds(step.added[1].content) == ["call"]
  }

  ghost predicate Answers(step: Step) {
    step.round.executed == [] && |step.added| == 1
  }

  ghost predicate AnswersThird(step: Stepper) {
    forall h, n :: if n <= 2 then CallsTool(step(h, n)) else Answers(step(h, n))
  }

  lemma OneResult(call: ToolCall, n: nat, execute: Executor)
    ensures ResultIds(ResultBlocks([call], n, execute)) == [call.id]
  {
    var results := ResultBlocks([call], n, execute);
    assert results == [ResultBlock(call, execute(n, 0, call))];
    assert results[1..] == [];
  }

  lemma CallingIteration(history: seq<Message>, n: nat, provider: Provider, execute: Executor, chunk: Chunk)
    requires provider(n, history) == [chunk] && IsCall(chunk) && chunk.toolUseId == "call"
    ensures CallsTool(Iteration(history, n, provider, execute))
  {
    OneChunk(chunk, n);
    OneResult(CallOf(chunk, n), n, execute);
  }

  lemma AnsweringIteration(history: seq<Message>, n: nat, execute: Executor)
    requires n > 2
    ensures Answers(Iteration(history, n, TwiceThenAnswer(), execute))
  {
    OneChunk(Chunk("done", "", "", "", false, 0, 0, None), n);
  }

  lemma TwiceAnswersThird(execute: Executor)
    ensures AnswersThird(Steps(TwiceThenAnswer(), execute))
  {
    forall h: seq<Message>, n: nat
      ensures var step := Steps(TwiceThenAnswer(), execute)(h, n); if n <= 2 then CallsTool(step) else Answers(step)
    {
      if n <= 2 {
        CallingIteration(h, n, TwiceThenAnswer(), execute, Chunk("", "ls", "", "call", true, 0, 0, None));
      } else {
        AnsweringIteration(h, n, execute);
      }
    }
  }

  lemma OneIteration(history: seq<Message>, k: nat, step: Stepper)
    requires k > 0 && !Iterations(history, k - 1, step).finished
    ensures var before := Iterations(history, k - 1, step).trace;
      var next := step(history + before.added, k);
      && Iterations(history, k, step).trace.added == before.added + next.added
      && Iterations(history, k, step).finished == (next.round.executed == [])
  {}

  lemma ThreeIterations(history: seq<Message>, step: Stepper)
    requires AnswersThird(step)
    ensures var added := Iterations(history, MAX_ITERATIONS, step).trace.added;
      |added| == 5 && ResultIds(added[1].content) == ["call"]
  {
    var k: nat := 0;
    OneIteration(history, k + 1, step);
    OneIteration(history, k + 2, step);
    OneIteration(history, k + 3, step);
    FinishedStays(history, k + 3, MAX_ITERATIONS, step);
  }

  /** What a new session that compacts after every turn holds after the first one. */
  lemma FirstTurn(userInput: string, config: Config, provider: Provider, execute: Executor)
    requires config.compactAfter == 1 && config.maxTurns > 0
    ensures var asked := [Message(User, [TextBlock(userInput)])];
      AfterAll([Turn(userInput, provider, execute)], config).history
      == Compacted(asked + Iterations(asked, MAX_ITERATIONS, Steps(provider, execute)).trace.added)
  {
    var asked := [Message(User, [TextBlock(userInput)])];
    assert [Turn(userInput, provider, execute)][..0] == [];
    assert [] + asked == asked;
    var inner := Iterations(asked, MAX_ITERATIONS, Steps(provider, execute)).trace.added;
    assert [] + (asked + inner) == asked + inner;
  }

  /** One turn is enough: with compaction after every turn, a question, two tool calls with their
      results and an answer leave the first results behind the summary, without their call. */
  lemma CompactionLeavesResults(userInput: string, config: Config, execute: Executor)
    requires config.compactAfter == 1 && config.maxTurns > 0
    ensures !Grounded(AfterAll([Turn(userInput, TwiceThenAnswer(), execute)], config).history)
  {
    var asked := [Message(User, [TextBlock(userInput)])];
    var inner := Iterations(asked, MAX_ITERATIONS, Steps(TwiceThenAnswer(), execute)).trace.added;
    FirstTurn(userInput, config, TwiceThenAnswer(), execute);
    TwiceAnswersThird(execute);
    ThreeIterations(asked, Steps(TwiceThenAnswer(), execute));
    IterationsGrounded(asked, MAX_ITERATIONS, TwiceThenAnswer(), execute);
    FirstResultsCutOff(asked, inner);
  }

  lemma FirstResultsCutOff(asked: seq<Message>, inner: seq<Message>)
    requires |asked| == 1 && Grounded(inner) && |inner| == 5 && ResultIds(inner[1].content) != []
    requires ResultIds(asked[0].content) == []
    ensures !Grounded(Compacted(asked + inner))
  {
    GroundedAppend(asked, inner);
    assert (asked + inner)[2] == inner[1];
    CompactionGrounded(asked + inner);
  }
}
