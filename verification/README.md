# Verified models of JasusiCLI's stateful core

This project models the parts of JasusiCLI whose correctness is a matter of algorithms and state: the
edit distance behind command suggestions, agent shadowing, the event-stream parser of the provider
client, the hash-chained audit log with its concurrent appenders, the assembly of streamed responses,
the agent turn loop with its compaction, the prompt cache, the output preview, the grouping of resume
arguments, the settings merge, session pruning and the retrying of provider requests.

Code that works by changing things is modelled as methods over arrays, fields and loops, each proved
against a specification function; what the code is for is then proved about those functions. Protocols
(the audit log's locks, the prompt cache under threads) are state machines whose runs are arbitrary
interleavings.

## Layout

- `EditDistance`, `Suggestions`, `AgentReading`, `AgentShadowing`: the commands crate.
- `SseFraming`, `SseParser`, `SseRoundTrip`: cutting bytes into frames, parsing them, and the round trip
  of printed payloads (sections 9.2.5 and 9.2.6 of the WHATWG HTML Living Standard).
- `AuditChain`, `AuditLog`, `AuditReading`, `AuditInterleaving`: what the verifier accepts, the log used by
  one caller, which fault is reported and what opening recalls, and every interleaving of several callers.
- `StreamAssembly`, `StreamEndings`, `OutputPreview`, `ResumeArgs`: the command-line crate; `StreamEndings`
  says what is answered when a stream breaks or ends early.
- `TurnLoop`, `TurnAccount`, `Compaction`, `ToolPairing`: the agent turn, what it keeps account of, when and
  to what its history is compacted, and tool calls with their results over every run.
- `PromptCache`, `CacheCounters`, `CompletionMap`, `CacheBreaks`: the cache with its threads, what its counters
  count, its completions as a map, and the bound on the breaks.
- `SettingsMerge`, `SessionPrune`, `ProviderRetry`: one module for each file they model.
- `Text`, `Sorting`, `Sequences`, `Wrappers`: strings, UTF-8, stable sorting, sequences of sequences,
  optional values.

## Where the code does not keep a promise

Each of these is proved, with the exact condition under which the promise does hold.

- The frames of a byte stream do not depend on how it was cut exactly when the separator taken is always
  the one completed first (`SseFraming.ChunkInvariance`); a stream that mixes line-feed and
  carriage-return framing can violate this (`SseFraming.MixedFramingDependsOnCut`).
- A payload printed as a frame, with an event name or without, is read back exactly when its lines have no
  leading blanks, its last line no trailing ones, no other line a trailing carriage return, it is not
  `[DONE]`, and the name is not `ping` (`SseRoundTrip.FrameRoundTrip`, `SseRoundTrip.LeadingBlankLost`).
- A push that meets a frame that does not parse drops the events before it. On a stream whose frames do not
  depend on the cut, the outcome does not either (`SseParser.EventsChunkInvariant`), but the events delivered
  by then do, except exactly when every frame parses or no event comes before the first frame that does not
  (`SseParser.DeliveryChunkInvariance`, `SseRoundTrip.ErrorAfterEvent`).
- From a provider that either starts a tool call as an empty object and streams its input, or starts it with
  its input and streams nothing, the streamed and the finished response agree exactly when no call is an
  empty object without streamed text (`StreamAssembly.AgreesUnlessSilentlyEmpty`); such a call reaches the
  agent loop with an empty text instead of `{}` (`StreamAssembly.EmptyObjectDisagrees`).
- Output that exceeds the limits is still shown in full exactly when its last line is the notice and the
  limits cut it right before that line (`OutputPreview.WholeExactly`, `OutputPreview.NoticeInOutput`).
- Merging settings is associative exactly when, wherever a plain value stands between two objects, the
  last object covers the first (`SettingsMerge.MergedAssociative`, `SettingsMerge.ValueBetweenObjects`).
- Compaction always keeps tool calls with their results, but it leaves results without their calls behind
  the summary exactly when the oldest message it keeps holds tool results (`ToolPairing.CompactionGrounded`),
  which one turn can bring about (`ToolPairing.CompactionLeavesResults`). In every run that is the only place
  where results can stand without their calls (`ToolPairing.EveryRunNearlyGrounded`).
- The bound on prompt-cache breaks holds in every run of a session exactly when the breaks it was opened with
  are paid for and one more is, in case the previous request was recorded by another version or read at
  least the least drop (`CacheBreaks.BoundExactly`). A version change can break it
  (`CacheBreaks.VersionChangeUnbounded`), by one break at most (`CacheBreaks.RunsAmortised`).
- The completion cache stands for the map of last recorded responses at every moment of a run exactly when no
  lookup whose entry has expired when it looks at the clock is overtaken by a record of the same key that is still
  fresh when the lookup ends (`CompletionMap.RefinesExactly`, `CompletionMap.ConcurrentLookupLosesRecord`).
- A lookup that reads its file while a record is writing it returns nothing, whatever was recorded before
  (`CompletionMap.LookupIsMapLookup`).
- Pruning unlinks the transcript of a removed session exactly when the session is newer than the cutoff; those
  removed for their age leave theirs behind (`SessionPrune.PruneKeepsTranscripts`,
  `SessionPrune.StaleTranscriptStays`).
- A tool call whose block never stops is not handed over: if its stream just ends, the answer is what the blocks
  before it showed (`StreamEndings.UnstoppedCall`).
- An export command takes a following path exactly when nothing follows the word `export`
  (`ResumeArgs.BareExactly`, `ResumeArgs.NotBareWithMore`); written with two slashes it goes on taking paths
  when it already has one (`ResumeArgs.TwoSlashesStayBare`).

## Model

| member | source | states |
|---|---|---|
| EditDistance.FillRows | rust/crates/commands/src/lib.rs:1842-1857 | The two-row loop over arrays ends with the entry of the full table for both whole strings |
| EditDistance.LevenshteinDistance | rust/crates/commands/src/lib.rs:1831-1858 | The result is the least number of insertions, deletions and substitutions that turn one string into the other |
| EditDistance.LevenshteinDistanceCli | rust/crates/jasusi-core/src/main.rs:622-646 | The copy without the equality shortcut returns the same number |
| EditDistance.TableIsRecurrence | rust/crates/commands/src/lib.rs:1846-1855 | Every table that obeys the recurrence the rows are filled with has the recursively defined entries, so the recurrence determines it |
| EditDistance.CellLaw | rust/crates/commands/src/lib.rs:1846-1855 | The table that the rows are compared with obeys the recurrence |
| EditDistance.DistanceIsLeast | rust/crates/commands/src/lib.rs:1831-1858 | The recurrence equals the minimum over all edit scripts, given as paths of words one edit apart: some script has that length and none is shorter |
| EditDistance.DistanceZero | rust/crates/commands/src/lib.rs:1832-1834 | The distance is zero exactly for equal strings, which makes the shortcut sound |
| EditDistance.DistanceSymmetric | rust/crates/commands/src/lib.rs:1831-1858 | The distance is symmetric |
| EditDistance.DistanceTriangle | rust/crates/commands/src/lib.rs:1831-1858 | The triangle inequality |
| EditDistance.DistanceBounds | rust/crates/commands/src/lib.rs:1835-1840 | The distance lies between the difference of the lengths and the longer length |
| Suggestions.SuggestSlashCommands | rust/crates/commands/src/lib.rs:1861-1903 | The code, calling the two-row distance, returns the specified suggestions |
| Suggestions.SuggestionsAreTheBest | rust/crates/commands/src/lib.rs:1897-1902 | They are the first `limit` of all qualifying commands in rank, distance, name length, name order, and every command left out ranks no better |
| Suggestions.BestScoreDecides | rust/crates/commands/src/lib.rs:1885-1894 | Taking the lexicographic minimum before filtering loses no command: it passes the filter exactly when some name or alias is related to the query |
| Suggestions.RelatedByScore | rust/crates/commands/src/lib.rs:1873-1884 | The score test means containment either way or at most two edits |
| Suggestions.RankedAreKeys | rust/crates/commands/src/lib.rs:1867-1895 | The filtered list holds one key for each qualifying command and no other |
| Suggestions.RankingUnique | rust/crates/commands/src/lib.rs:1897-1897 | An unstable sort makes no difference: there is one ranking |
| Suggestions.KeyExactly | rust/crates/commands/src/lib.rs:1867-1893 | The key of a command says how its names relate to the query: rank 0 if and only if the query begins some name or alias or the other way round, 1 if and only if that is not so but one contains the other, and the least edit count among the names of that class |
| Suggestions.KeyLeqExactly | rust/crates/commands/src/lib.rs:1897-1897 | Keys are compared by rank, distance, name length and name, in that order |
| Suggestions.QueryOf | rust/crates/commands/src/lib.rs:1862-1862 | Blanks around the input and slashes before the word do not belong to the query, and capitals do not count |
| Suggestions.NothingToSuggest | rust/crates/commands/src/lib.rs:1862-1866 | An empty query has no suggestions |
| AgentShadowing.LoadRoot | rust/crates/commands/src/lib.rs:2618-2638 | One directory in listing order, its first error stopping everything, sorted stably by name |
| AgentShadowing.MarkShadowed | rust/crates/commands/src/lib.rs:2640-2648 | Each agent of the next root is marked with the source of the first earlier agent of its folded name, and nothing else changes |
| AgentShadowing.LoadAgents | rust/crates/commands/src/lib.rs:2611-2652 | All agents of all roots in order, differing from what was read only in their marks, which obey the shadowing rule; or the first error |
| AgentShadowing.OneUnshadowedPerName | rust/crates/commands/src/lib.rs:2640-2648 | Among the agents whose names differ in capitals only, exactly the first is unshadowed and all others name its source |
| AgentShadowing.UnshadowedCount | rust/crates/commands/src/lib.rs:2640-2648 | As many agents are unshadowed as there are distinct folded names |
| Text.FoldedAlike | rust/crates/commands/src/lib.rs:2641-2641 | Two names fold alike if and only if they are the same but for capital letters of the alphabet |
| AgentReading.EntriesExactly | rust/crates/commands/src/lib.rs:2618-2637 | A directory is read if and only if no entry fails and every definition file can be read; then there is one agent for each definition file and none for other files |
| AgentReading.RootExactly | rust/crates/commands/src/lib.rs:2618-2638 | Its agents are sorted by name, are those of the definition files, and those of one name stay in listing order |
| AgentReading.RootsInOrder | rust/crates/commands/src/lib.rs:2611-2652 | Roots are read one after the other, and the first that fails decides |
| AgentReading.AgentRoundTrip | rust/crates/commands/src/lib.rs:2629-2636 | A definition written out, with any of its four fields left out, is read back field by field, and without a name it is named after its file |
| AgentReading.FirstCounts | rust/crates/commands/src/lib.rs:2731-2753 | Comments, and second definitions of a key, do not count |
| SseFraming.DrainConserves | rust/crates/api/src/sse.rs:40-60 | Frames, separators and leftover are exactly the bytes of the buffer |
| SseFraming.ChunksConserve | rust/crates/api/src/sse.rs:15-26 | The same over any sequence of pushes |
| SseFraming.ChunkInvariance | rust/crates/api/src/sse.rs:40-60 | Frames and leftover are the same for every way to cut the stream if and only if the separator taken is always the one completed first |
| SseFraming.LineFeedFraming | rust/crates/api/src/sse.rs:41-45 | A stream without a carriage-return separator meets that condition |
| SseFraming.CarriageReturnFraming | rust/crates/api/src/sse.rs:46-51 | So does a stream without two line feeds in a row |
| SseFraming.MixedFramingDependsOnCut | rust/crates/api/src/sse.rs:41-51 | A concrete stream with both framings whose frames depend on the cut |
| SseParser.SseParser.FindSeparator | rust/crates/api/src/sse.rs:42-50 | The search over windows finds the first occurrence |
| SseParser.SseParser.NextFrame | rust/crates/api/src/sse.rs:40-60 | Line feeds are searched first; the frame and its separator leave the buffer, which is otherwise unchanged |
| SseParser.SseParser.Push | rust/crates/api/src/sse.rs:15-26 | The answer and the buffer left behind, including the push that stops at a frame that does not parse and drops the events before it |
| SseParser.SseParser.Finish | rust/crates/api/src/sse.rs:28-38 | The buffer is emptied and read as one last frame |
| SseParser.ParseFrame | rust/crates/api/src/sse.rs:63-101 | The frame is answered by its joined data lines and its last event name |
| SseParser.ReadLines | rust/crates/api/src/sse.rs:69-83 | The loop over the lines computes both |
| SseParser.IgnoredLine | rust/crates/api/src/sse.rs:72-83 | A comment or unknown field can be put anywhere without changing data or event name |
| SseParser.LastNameCounts | rust/crates/api/src/sse.rs:76-79 | The event name is that of the last line that gives one, wherever it stands |
| SseParser.FailedPushKeepsRest | rust/crates/api/src/sse.rs:19-23 | A push fails at the first frame that does not parse; that frame and those before it are gone, and all that follows stays in the buffer |
| SseParser.EventsChunkInvariant | rust/crates/api/src/sse.rs:15-61 | On every settled stream the outcome of all pushes together, the events or the error of the first frame that does not parse, is the same for every cut, and so is the leftover when all frames parse |
| SseParser.DeliveryChunkInvariance | rust/crates/api/src/sse.rs:15-26 | The events delivered before a failing push are the same for every cut of a settled stream if and only if every frame parses or no event comes before the first frame that does not |
| SseParser.FinishCompletes | rust/crates/api/src/sse.rs:28-38 | Ending a stream without its last separator yields the event that the separator would have yielded, whether or not the last line was complete |
| SseRoundTrip.FrameRoundTrip | rust/crates/api/src/sse.rs:63-101 | A payload printed as a frame, with an event name or without, is read back if and only if it is printable and the name, blanks around it aside, is not `ping` |
| SseRoundTrip.SilentFrame | rust/crates/api/src/sse.rs:85-96 | A ping and an end mark say nothing |
| SseRoundTrip.LeadingBlankLost | rust/crates/api/src/sse.rs:80-82 | A payload that is not read back |
| SseRoundTrip.RoundTrip | rust/crates/api/src/sse.rs:15-101 | Any list of frames with printable payloads, named or not, with pings and end marks among them, printed as UTF-8 and cut into any chunks, comes back as the events of its payloads in order with an empty buffer |
| SseRoundTrip.ErrorAfterEvent | rust/crates/api/src/sse.rs:19-23 | A stream, one event and then a frame that does not parse, whose delivered events depend on the cut |
| AuditChain.HexInjective | rust/crates/jasusi-service/src/audit.rs:246-246 | The hexadecimal text of a digest determines the digest |
| AuditChain.SplitAtBrace | rust/crates/jasusi-service/src/audit.rs:245-245 | A brace-free prefix followed by an object splits in one way only |
| AuditChain.DigestInputInjective | rust/crates/jasusi-service/src/audit.rs:243-245 | The hashed bytes determine the event and the hash before it |
| AuditChain.ChainPrefix | rust/crates/jasusi-service/src/audit.rs:269-293 | Every prefix of an accepted chain is one |
| AuditChain.TamperEvidence | rust/crates/jasusi-service/src/audit.rs:269-293 | Two nonempty accepted chains with the same final hash are identical, or the lemma returns two distinct byte strings with one digest |
| AuditLog.AuditLog.Open | rust/crates/jasusi-service/src/audit.rs:168-191 | The loop recovers the next number and the last hash, and refuses a malformed line |
| AuditLog.AuditLog.Append | rust/crates/jasusi-service/src/audit.rs:199-258 | The whole new state of counter, hash and file, and the number returned |
| AuditLog.AuditLog.Verify | rust/crates/jasusi-service/src/audit.rs:261-295 | The first fault in file order is reported; success if and only if the lines parse and form a chain numbered from zero |
| AuditLog.AppendHolds | rust/crates/jasusi-service/src/audit.rs:243-256 | An append to a file that holds a chain makes it hold the chain with one more event, with memory in step |
| AuditLog.OpenRecovers | rust/crates/jasusi-service/src/audit.rs:171-182 | Reading a chain back gives its length and last hash |
| AuditLog.HeldIsRecovered | rust/crates/jasusi-service/src/audit.rs:168-191 | Reopening a held log restores the memory it had |
| AuditLog.VerifyIsChain | rust/crates/jasusi-service/src/audit.rs:269-294 | From any point on, the verifier's loop accepts exactly the lines that continue the chain |
| AuditLog.VerifiesChains | rust/crates/jasusi-service/src/audit.rs:261-295 | The verifier accepts a file if and only if it parses to a chain |
| AuditLog.FilesWithSameHash | rust/crates/jasusi-service/src/audit.rs:261-295 | Two nonempty verified files ending in the same hash hold the same events, or the lemma returns a SHA-256 collision |
| AuditReading.FirstFault | rust/crates/jasusi-service/src/audit.rs:269-294 | When verification fails, the lines before the fault continue the chain and the reported error is what is wrong with the next one: it does not parse, or its number or previous hash do not continue the chain, with its number, or its own hash is wrong, with its place |
| AuditReading.OpenExactly | rust/crates/jasusi-service/src/audit.rs:168-191 | Opening any file succeeds if and only if all its lines parse, chain or not; then the next number and the last hash are those of the event with the greatest number, the first of several |
| AuditInterleaving.StepKeepsInv | rust/crates/jasusi-service/src/audit.rs:214-257 | Every lock, read, write, partial write-out, flush, publish, unlock, close and reopen step keeps the invariant |
| AuditInterleaving.RunKeepsInv | rust/crates/jasusi-service/src/audit.rs:168-257 | The invariant holds after every run, over any number of threads and reopenings |
| AuditInterleaving.AppendedAllHolds | rust/crates/jasusi-service/src/audit.rs:199-258 | Appending one after the other keeps the file a chain with one event for each call |
| AuditInterleaving.RunsAreSequential | rust/crates/jasusi-service/src/audit.rs:168-257 | In every interleaving, at rest: the file is byte for byte what the same calls made one after the other write, it is a chain the verifier accepts, each call got its own consecutive number, and memory holds length and last hash |
| AuditInterleaving.NewLogRuns | rust/crates/jasusi-service/src/audit.rs:168-257 | A log that started empty numbers its events from zero; they are those of the successful calls, in the order of the numbers returned |
| AuditInterleaving.NoDeadlock | rust/crates/jasusi-service/src/audit.rs:214-253 | While a call is pending some lock, write or unlock step can be taken |
| StreamAssembly.ResponseToEvents | rust/crates/jasusi-core/src/main.rs:5349-5366 | The loop with its pending tool converts the blocks one by one |
| StreamAssembly.Stream | rust/crates/jasusi-core/src/main.rs:4617-4726 | The result for any stream and any ending, with the added stop and the unstreamed repetition, every success containing a stop; what that result is on streams of blocks is stated by the members of StreamEndings |
| StreamAssembly.FoldWellFormed | rust/crates/jasusi-core/src/main.rs:4623-4695 | What the fold makes of any well-formed stream, with no call left pending |
| StreamAssembly.StreamAgreesWithResponse | rust/crates/jasusi-core/src/main.rs:4623-4695 | After joining adjacent text, the fold and the conversion of the finished response agree if and only if the start and the deltas of each tool call spell out its input |
| StreamAssembly.AgreesUnlessSilentlyEmpty | rust/crates/jasusi-core/src/main.rs:5334-5341 | From a provider that does its part they agree if and only if no call starts as an empty object and gets no streamed text |
| StreamAssembly.ResplittingChangesNothing | rust/crates/jasusi-core/src/main.rs:4643-4664 | Cutting the same blocks into other deltas changes nothing |
| StreamAssembly.EmptyObjectDisagrees | rust/crates/jasusi-core/src/main.rs:5331-5342 | The family of calls for which the two disagree: an input that really is empty and streams no delta |
| StreamEndings.UnfinishedStream | rust/crates/jasusi-core/src/main.rs:4697-4726 | A stream of whole blocks without a stop: if some block is a tool call or has text, the answer is the streamed events, the cache record and a stop, whatever a repetition would answer; otherwise it is the answer or the error of the repeated request |
| StreamEndings.UnstoppedCall | rust/crates/jasusi-core/src/main.rs:4634-4681 | A tool call whose block does not stop is not among the events |
| StreamEndings.FinishedStream | rust/crates/jasusi-core/src/main.rs:4623-4714 | A finished stream answers the events of its blocks, usage, stop and the cache record, whatever a repetition would answer |
| StreamEndings.BrokenStream | rust/crates/jasusi-core/src/main.rs:4623-4627 | A stream that breaks answers its error, whatever came before |
| StreamEndings.BlocksInMessageStart | rust/crates/jasusi-core/src/main.rs:4629-4642 | Blocks in the message start are treated as blocks that start after it |
| StreamEndings.StrayEvents | rust/crates/jasusi-core/src/main.rs:4643-4681 | Without a pending call input deltas and stops change nothing; text is told at once |
| TurnLoop.ReadStream | jasusi_cli/core/runtime.py:195-213 | The loop over chunks computes text, calls, stop reason, yields and tokens |
| TurnLoop.ExecuteCalls | jasusi_cli/core/runtime.py:236-248 | Each call is handed to the executor once and in order, as the log of calls made shows; its result block has its id, exactly the text returned, and the error flag if and only if that text starts with `[error]` or `[permission` |
| TurnLoop.ConversationRuntime.RunIteration | jasusi_cli/core/runtime.py:186-251 | The messages appended, the tokens counted and the calls executed by one iteration |
| TurnLoop.ConversationRuntime.RunIterations | jasusi_cli/core/runtime.py:183-251 | The loop with its early exit performs the specified iterations |
| TurnLoop.ConversationRuntime.RunTurn | jasusi_cli/core/runtime.py:167-262 | The whole new session state, what is yielded, and the log of all provider and tool calls, including the turn limit |
| TurnLoop.ConversationRuntime.MaybeCompact | jasusi_cli/core/runtime.py:264-269 | The new session state; when that is a compaction is stated by Compaction.TurnCompacts |
| TurnLoop.ConversationRuntime.CompactHistory | jasusi_cli/core/runtime.py:271-289 | The history is replaced by a summary and the last four messages, or left alone |
| TurnLoop.ConversationRuntime.ClearHistory | jasusi_cli/core/runtime.py:155-157 | History and turn count are reset, the other counters kept |
| TurnAccount.TurnConserves | jasusi_cli/core/runtime.py:177-253 | The question comes first; streamed text, yielded text and assistant text are equal; the calls asked for, executed and recorded are the same in order; the result blocks carry, in order, exactly the texts the tools returned, flagged as errors if and only if they start with `[error]` or `[permission`; input and output tokens are the sums over all chunks |
| TurnAccount.IterationsConserve | jasusi_cli/core/runtime.py:185-251 | All of that, the question aside, after any number of iterations |
| TurnAccount.TurnRounds | jasusi_cli/core/runtime.py:185-253 | A turn makes 1 to 16 provider calls and at most 33 messages; the n-th gets the history with the question and two messages for each call before it; each call it asks for is executed as the k-th of iteration n with its own input and id or their stand-ins; and all but the last ask for a tool |
| TurnAccount.StopIsLast | jasusi_cli/core/runtime.py:197-203 | The reported reason is the last nonempty one of the stream, or `end_turn` |
| TurnAccount.TurnEnds | jasusi_cli/core/runtime.py:229-234 | If the last provider call asked for no tool, the turn yields text and then one chunk without text that carries the last nonempty stop reason of that call, or `end_turn`; otherwise it yields text only and has used up its 16 calls |
| TurnAccount.TurnAtLimit | jasusi_cli/core/runtime.py:170-175 | At the turn limit the session does not change, nobody is called, and one chunk says so |
| TurnAccount.TurnTextFirst | jasusi_cli/core/runtime.py:215-227 | In every assistant message of a turn text comes before the calls |
| TurnAccount.DecimalReads | jasusi_cli/core/runtime.py:208-208 | The stand-in id of a call determines its iteration |
| Compaction.TurnCompacts | jasusi_cli/core/runtime.py:253-269 | A turn counts as one, adds its tokens, and compacts exactly when its number is a multiple of the configured one and the history has more than four messages |
| Compaction.CompactedExactly | jasusi_cli/core/runtime.py:275-288 | A long history becomes one user message and its last four messages unchanged; the message holds all texts of the others, joined with blanks, in full up to 160 characters and else the first 157 with three dots |
| Compaction.ShortStays | jasusi_cli/core/runtime.py:272-274 | A history of four messages or fewer is left alone |
| ToolPairing.EveryRunPaired | jasusi_cli/core/runtime.py:155-295 | After any mix of turns, clears and compactions, over any provider and tools, each assistant message with calls is immediately followed by a user message with results for the same ids in the same order, and the turn count is within the limit |
| ToolPairing.EveryRunCounts | jasusi_cli/core/runtime.py:155-262 | After any mix of turns, clears and compactions the turn count is the number of turns since the last clear, up to the limit |
| ToolPairing.CompactedPaired | jasusi_cli/core/runtime.py:271-289 | Compaction keeps the pairing |
| ToolPairing.EveryRunNearlyGrounded | jasusi_cli/core/runtime.py:155-295 | After any mix of turns, clears and compactions, results immediately follow their calls everywhere but behind the first message |
| ToolPairing.CompactionGrounded | jasusi_cli/core/runtime.py:275-288 | In every history a run can reach, compaction leaves all results behind their calls if and only if the oldest message it keeps holds no results |
| ToolPairing.CompactionLeavesResults | jasusi_cli/core/runtime.py:264-288 | A session in which one turn with two tool calls and an answer leaves results without their call |
| PromptCache.PromptCache.LookupCompletion | rust/crates/api/src/prompt_cache.rs:145-193 | The whole new state and the answer, for the missing, outdated, expired and fresh entry |
| PromptCache.PromptCache.RecordUsage | rust/crates/api/src/prompt_cache.rs:209-243 | The whole new state and the break reported; which counter a break goes to is stated by CacheCounters.RunsCounted |
| PromptCache.BreakExactly | rust/crates/api/src/prompt_cache.rs:314-382 | When a break is reported, and when it counts as unexpected, as conditions on versions, token counts, fingerprints and times |
| PromptCache.BreakSaysWhy | rust/crates/api/src/prompt_cache.rs:320-382 | What a reported break says: tokens before and now, and the reason, which is the change of version, else every part of the prompt that changed, else the expiry with the time passed |
| CompletionMap.LookupKeepsView | rust/crates/api/src/prompt_cache.rs:161-178 | Ending a lookup leaves what the cache shows at any time unchanged if and only if it did not read an expired entry where there now is a fresh one |
| CompletionMap.LookupBegan | rust/crates/api/src/prompt_cache.rs:151-153 | A lookup that ends began at some step and holds the file of that moment, or nothing if a record was just writing it |
| CompletionMap.RefinesExactly | rust/crates/api/src/prompt_cache.rs:145-243 | Over every run of any number of threads with a clock that never goes back: each file holds the last response recorded under its key and is missing only where that has expired, at every moment, if and only if no expired lookup is overtaken by a record of its key that is still fresh |
| CompletionMap.SequentialRefines | rust/crates/api/src/prompt_cache.rs:145-243 | Called from one thread, the cache always stands for that map |
| CompletionMap.SequentialLookup | rust/crates/api/src/prompt_cache.rs:145-193 | Called from one thread, every lookup returns what the map says |
| CompletionMap.LookupIsMapLookup | rust/crates/api/src/prompt_cache.rs:145-193 | While the map is refined, a lookup whose read is not torn returns a response if and only if it is the last one recorded under the request's hash when the lookup began and younger than the time to live; a torn one returns nothing |
| CacheBreaks.RunsAmortised | rust/crates/api/src/prompt_cache.rs:145-243 | In every interleaving of a session opened with any persisted state: breaks times the least drop, plus what the previous request read, never exceed the cached tokens read, up to the breaks that were unpaid before and one more for a change of version |
| CacheBreaks.EmptyAmortised | rust/crates/api/src/prompt_cache.rs:120-132 | A session for which nothing was persisted starts with no unpaid break |
| CacheCounters.RunsCounted | rust/crates/api/src/prompt_cache.rs:145-243 | In every run, under any interleaving: hits are the lookups that read an unexpired entry of the running version, misses the others; unexpected breaks are the records after a request of the same version and parts, within the time to live, whose reads fell by the least drop, expected ones the other breaks; records, recorded responses and the tokens read and created are summed; the request before is always the last one recorded or answered from a file |
| CacheCounters.LastUse | rust/crates/api/src/prompt_cache.rs:384-396 | After a record or a hit the statistics name its tokens, its request and its source; every lookup leaves its key |
| CacheCounters.OneUnexpected | rust/crates/api/src/prompt_cache.rs:221-231 | The same request recorded twice, a second apart, the second time with 5000 cached tokens fewer, is one unexpected break |
| CacheBreaks.BoundExactly | rust/crates/api/src/prompt_cache.rs:120-132 | For any persisted state: every run keeps breaks times the least drop within the cached tokens read if and only if it holds at the start, and holds with one more break in case the previous request has another version or read at least the least drop |
| CacheBreaks.BoundAfterVersionChange | rust/crates/api/src/prompt_cache.rs:320-333 | When all breaks were paid for, every run keeps the bound if and only if no request is remembered, or it has the running version, or one more break is paid for |
| CacheBreaks.VersionChangeUnbounded | rust/crates/api/src/prompt_cache.rs:320-333 | A state that a session of another version leaves after one request, from which a run exceeds the bound |
| CompletionMap.ConcurrentLookupLosesRecord | rust/crates/api/src/prompt_cache.rs:150-178 | A run in which a lookup that read an expired file deletes a response recorded after it |
| OutputPreview.TruncateOutputForDisplay | rust/crates/jasusi-core/src/main.rs:5269-5311 | The output trimmed of newlines if its lines fit both limits, else the kept part and the notice |
| OutputPreview.PreviewLines | rust/crates/jasusi-core/src/main.rs:5279-5301 | The running character budget truncates exactly when the joined lines exceed a limit, and then keeps the first `max_lines` lines cut to `max_chars` characters, less a final line break |
| OutputPreview.KeptWithinLimits | rust/crates/jasusi-core/src/main.rs:5275-5303 | The part before the notice is within both limits, and a prefix of the output when that has no carriage returns |
| OutputPreview.KeptIsLongest | rust/crates/jasusi-core/src/main.rs:5275-5303 | No longer prefix of the lines that is within both limits and does not end in a line break could have been kept |
| OutputPreview.WholeIsTrimmed | rust/crates/jasusi-core/src/main.rs:5270-5279 | Without carriage returns the lines joined again are the trimmed output |
| OutputPreview.WholeExactly | rust/crates/jasusi-core/src/main.rs:5269-5311 | For any output: the preview is the lines joined again if and only if they fit both limits, or the last of them is the notice and the line limit or the character limit falls exactly before it |
| OutputPreview.UnchangedExactly | rust/crates/jasusi-core/src/main.rs:5269-5311 | Without carriage returns that is when the preview is the trimmed output |
| OutputPreview.NoticeInOutput | rust/crates/jasusi-core/src/main.rs:5304-5309 | A concrete output that exceeds the limits and is returned unchanged |
| ResumeArgs.ParseResumeArgs | rust/crates/jasusi-core/src/main.rs:763-834 | The first argument is the session unless it names a known command or is missing, and then the latest is resumed; it fails if and only if the first command token does not start with a slash; otherwise commands joined with blanks are tokens joined with blanks, each command starts with a slash, and the commands are the groups of the one grouping of the tokens |
| ResumeArgs.GroupTokens | rust/crates/jasusi-core/src/main.rs:771-798 | The loop over tokens computes that grouping or fails |
| ResumeArgs.GroupingUnique | rust/crates/jasusi-core/src/main.rs:774-798 | The rules for starting and continuing a command determine the grouping |
| ResumeArgs.GroupsConserve | rust/crates/jasusi-core/src/main.rs:774-798 | Commands joined with blanks are tokens joined with blanks |
| ResumeArgs.ParsedCommands | rust/crates/jasusi-core/src/main.rs:774-803 | For every successful parse no text is lost and each command starts with a slash after leading blanks |
| ResumeArgs.KnownExactly | rust/crates/jasusi-core/src/main.rs:813-828 | A token is a command if and only if its first word, without the slash, is a name or alias of the table |
| ResumeArgs.BareExactly | rust/crates/commands/src/lib.rs:1302-1302 | Of the commands without arguments, exactly `/export` takes a following token that starts with a slash |
| ResumeArgs.NotBareWithMore | rust/crates/commands/src/lib.rs:1714-1721 | A command with more behind its first word takes none |
| ResumeArgs.TakesExactly | rust/crates/jasusi-core/src/main.rs:774-811 | A one-word command goes on with a token that starts with a slash if and only if it is `/export` and the token names no command, and with every other token |
| ResumeArgs.TwoSlashesStayBare | rust/crates/commands/src/lib.rs:1714-1721 | With two slashes an export command that has a path still counts as one without |
| SettingsMerge.DeepMerge | jasusi_cli/config/settings.py:126-133 | On shared, nested dictionaries: a fresh result that denotes the merged tree, with no right to modify either input or anything below them |
| SettingsMerge.LoadMerged | jasusi_cli/config/settings.py:95-106 | The fold over the sources that exist denotes the merge of their trees, in a fresh outer dictionary |
| SettingsMerge.MergedWhereBoth | jasusi_cli/config/settings.py:129-130 | At any depth, where both trees have an object the result has the two merged |
| SettingsMerge.MergedBelow | jasusi_cli/config/settings.py:128-132 | Below such a place, a key that only one side has, or that is not an object on both, is taken whole from the right side |
| SettingsMerge.OverrideLeafWins | jasusi_cli/config/settings.py:131-132 | A plain value of the override wins at any depth |
| SettingsMerge.UntouchedSurvives | jasusi_cli/config/settings.py:127-127 | What the override leaves alone survives at any depth |
| SettingsMerge.MergedAbsorbs | jasusi_cli/config/settings.py:126-133 | Merging the same override twice changes nothing |
| SettingsMerge.CoversIsAbsorbed | jasusi_cli/config/settings.py:126-133 | An override swallows a tree if and only if it covers all its paths |
| SettingsMerge.MergedAssociative | jasusi_cli/config/settings.py:126-133 | Merging is associative if and only if the trees are compatible |
| SettingsMerge.ValueBetweenObjects | jasusi_cli/config/settings.py:129-132 | Three settings for which it is not |
| SettingsMerge.SameShapeCompatible | jasusi_cli/config/settings.py:129-129 | Trees that agree on which shared keys hold objects are compatible |
| SettingsMerge.HeaviestWins | jasusi_cli/config/settings.py:95-106 | The heaviest source with a plain value under a path decides: local beats project beats user |
| SessionPrune.SessionStore.Prune | jasusi_cli/memory/session_store.py:192-209 | The new index holds only sessions updated after the cutoff: all of them if at most `max_entries`, none if that is negative, else exactly `max_entries`, none of them updated before one that goes, in their old order; the transcripts of the evicted ones are gone and no others; the number of sessions removed |
| SessionPrune.SessionStore.Remove | jasusi_cli/memory/session_store.py:205-207 | The loop deletes the listed sessions and their transcripts and nothing else |
| SessionPrune.PruneKeepsCount | jasusi_cli/memory/session_store.py:198-207 | Kept and evicted sessions together are those newer than the cutoff; with n of those, n are kept if n is at most `max_entries`, 0 if that is negative, and else exactly `max_entries` |
| SessionPrune.KeptIsPruned | jasusi_cli/memory/session_store.py:198-207 | The specified index meets that description |
| SessionPrune.PruneTies | jasusi_cli/memory/session_store.py:202-204 | Of the sessions updated at the same time, those first in the index go first |
| SessionPrune.PruneKeepsNewest | jasusi_cli/memory/session_store.py:202-207 | No evicted session was updated after a kept one |
| SessionPrune.PruneKeepsTranscripts | jasusi_cli/memory/session_store.py:198-207 | A session's transcript is unlinked if and only if the session is removed and newer than the cutoff |
| SessionPrune.StaleTranscriptStays | jasusi_cli/memory/session_store.py:198-200 | A session that is only too old is removed and its transcript stays |
| SessionPrune.PruneTwice | jasusi_cli/memory/session_store.py:192-209 | Pruning again with the same cutoff removes nothing |
| ProviderRetry.IterSse | jasusi_cli/api/provider_client.py:137-211 | A second request is sent if and only if the first attempt had no response, a status among 408, 409, 429, 500, 502, 503 and 504, or a success whose body broke before any payload; a third if and only if the second did too; never a fourth; each carries the original body although the variable is reused; yields and outcome are those of the last attempt, and the pauses 0.2 and 0.4 seconds |
| ProviderRetry.Emit | jasusi_cli/api/provider_client.py:178-184 | The variable holds the request body as long as nothing was yielded |
| ProviderRetry.OneDecides | jasusi_cli/api/provider_client.py:146-209 | For any attempts there is exactly one that decides: the first that did not fail quietly, or the third |
| ProviderRetry.YieldsFromOneAttempt | jasusi_cli/api/provider_client.py:189-198 | All payloads that the bodies of all attempts held come from the last one |
| ProviderRetry.BrokenAfterOutput | jasusi_cli/api/provider_client.py:190-198 | A stream that breaks after output is not repeated and its error is raised |
| ProviderRetry.DoneExactly | jasusi_cli/api/provider_client.py:146-209 | The request succeeds if and only if one of the first three attempts is a success whose body ends and those before it failed quietly |

## Left out

- HTTP, terminals, gRPC, rendering and progress reports are effects; what they deliver is an arbitrary input.
- A persisted file without a version counts as one of the running version; the model has the version that
  reading yields.
- JSON, SHA-256 and the request hashes are function parameters. Where it matters, an explicit hypothesis
  says that serializing writes one line holding an object that parses back, that a digest has 32 bytes,
  that decoding inverts UTF-8 encoding and leaves a line feed alone, or that no JSON text is empty
  (UTF-8 encoding itself is modelled and proved injective).
- Redaction, timestamps and the other header fields of an audit event are one opaque part of it.
- Failed or partial writes of the audit log and of the cache files, and a crash between write and flush. A
  cache file that is read halfway through a successful write is modelled as a torn read.
- Verifying an audit log while an append is in flight; the verifier reads a file at rest.
- Audit numbers are bounded below 2^64 for appends; the saturating additions of opening and verifying are modelled.
- Statistics counters are unbounded, so their 32-bit and 64-bit limits do not appear.
- Exceptions of the provider or the tools, tool inputs that are not JSON, and abandoned generators in the turn loop.
- A configuration with `compact_after_turns` equal to zero, for which the source divides by zero.
- Conversions of merged settings to numbers and booleans, settings files whose root is not an object,
  and the order of dictionary keys.
- Writing the session index to disk; timestamps are strings compared as the source compares them.
- Cancellation of a retried request, and closing the connection after its body.
- The slash-command table is a parameter, and the argument checks of the single commands do not appear;
  for resume arguments only the test for an export command without a path is modelled.
- The command-line crate's own two suggestion functions, the loading of skills, the scored router and
  the handlers of single commands: they share no state with what is modelled here.
- Inner loops of one source function are methods of their own where that keeps the proofs small:
  `EditDistance.FillRows`, `Suggestions.ComputeBestScore`, `AgentShadowing.MarkShadowed`,
  `SettingsMerge.MergeKey`, `OutputPreview.PreviewLines`, `ResumeArgs.GroupTokens`, `SseParser.ReadLines`,
  `TurnLoop.ReadStream`, `ProviderRetry.Emit`.
- The iterator chain of the suggestions is followed from its last element to its first, which yields the same list.
