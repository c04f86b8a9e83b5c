/** What the counters of the prompt cache count, over every run of a session. */
module CacheCounters {
  import opened Wrappers
  import opened PromptCache

  // ---- What a step is ----

  /** The step ends a lookup that read an entry of the running version that has not expired. */
  predicate Hits<R, B>(s: System<R, B>, step: Step<R, B>, session: Session<R, B>) {
    && step.EndLookup? && s.At(step.t).Looking? && s.At(step.t).entry.Some?
    && var entry := s.At(step.t).entry.value;
    && entry.version == session.hashing.version
    && session.config.completionTtl > 0 && step.now < entry.cachedAt + session.config.completionTtl
  }

  /** The request before step `n`: the last one recorded or answered from a file. */
  ghost function Remembered<R, B>(states: seq<System<R, B>>, steps: seq<Step<R, B>>, n: nat, session: Session<R, B>)
    : Option<Tracked>
    requires n <= |steps| && |steps| < |states|
  {
    if n == 0 then session.persisted.previous
    else if steps[n - 1].RecordUsage? then
      var step := steps[n - 1];
      Some(Tracked(step.now, session.hashing.version, session.hashing.parts(step.request), step.usage.cacheRead))
    else if Hits(states[n - 1], steps[n - 1], session) then
      var pc := states[n - 1].At(steps[n - 1].t);
      Some(Tracked(steps[n - 1].later, session.hashing.version, session.hashing.parts(pc.request),
                   pc.entry.value.response.usage.cacheRead))
    else Remembered(states, steps, n - 1, session)
  }

  /** The cached tokens read fell by at least the least drop. */
  predicate Fell(before: Tracked, usage: Usage, config: Config) {
    config.minDrop == 0 || usage.cacheRead + config.minDrop <= before.cacheRead
  }

  /** The record follows a request of the same version, with the same prompt, within the time to live, and
      still fewer cached tokens were read. */
  predicate Unexpected<R, B>(before: Option<Tracked>, step: Step<R, B>, session: Session<R, B>) {
    && step.RecordUsage? && before.Some?
    && before.value.version == session.hashing.version && before.value.parts == session.hashing.parts(step.request)
    && step.now <= before.value.observedAt + session.config.promptTtl
    && Fell(before.value, step.usage, session.config)
  }

  /** The record follows a request of another version; or fewer cached tokens were read, but the prompt
      changed or the time to live was over. */
  predicate Expected<R, B>(before: Option<Tracked>, step: Step<R, B>, session: Session<R, B>) {
    && step.RecordUsage? && before.Some?
    && (before.value.version != session.hashing.version
        || (Fell(before.value, step.usage, session.config)
            && (before.value.parts != session.hashing.parts(step.request)
                || before.value.observedAt + session.config.promptTtl < step.now)))
  }

  // ---- What is counted ----

  datatype Tally = Tally(
    lookups: nat, hits: nat, records: nat, responses: nat, unexpected: nat, expected: nat, read: nat, creation: nat)

  function One(b: bool): nat { if b then 1 else 0 }

  /** The usage that a step adds: of a record, or of the response found in a file. */
  function Used<R, B>(s: System<R, B>, step: Step<R, B>, session: Session<R, B>): Option<Usage> {
    if step.RecordUsage? then Some(step.usage)
    else if Hits(s, step, session) then Some(s.At(step.t).entry.value.response.usage)
    else None
  }

  ghost function Tallied<R, B>(states: seq<System<R, B>>, steps: seq<Step<R, B>>, n: nat, session: Session<R, B>): Tally
    requires n <= |steps| && |steps| < |states|
  {
    if n == 0 then Tally(0, 0, 0, 0, 0, 0, 0, 0)
    else
      var before, step := Tallied(states, steps, n - 1, session), steps[n - 1];
      var last, used := Remembered(states, steps, n - 1, session), Used(states[n - 1], step, session);
      Tally(before.lookups + One(step.EndLookup?),
            before.hits + One(Hits(states[n - 1], step, session)),
            before.records + One(step.RecordUsage?),
            before.responses + One(step.RecordUsage? && step.response.Some?),
            before.unexpected + One(Unexpected(last, step, session)),
            before.expected + One(Expected(last, step, session)),
            before.read + (if used.Some? then used.value.cacheRead else 0),
            before.creation + (if used.Some? then used.value.cacheCreation else 0))
  }

  /** Every counter is what it was when the session was opened, and what was tallied since. */
  ghost predicate Counted(stats: Stats, start: Stats, tally: Tally) {
    && stats.hits == start.hits + tally.hits
    && stats.hits + stats.misses == start.hits + start.misses + tally.lookups
    && stats.trackedRequests == start.trackedRequests + tally.records
    && stats.writes == start.writes + tally.responses
    && stats.unexpected == start.unexpected + tally.unexpected
    && stats.expected == start.expected + tally.expected
    && stats.totalRead == start.totalRead + tally.read
    && stats.totalCreation == start.totalCreation + tally.creation
  }

  lemma LookupCounts<R, B>(s: System<R, B>, step: Step<R, B>, s': System<R, B>, session: Session<R, B>)
    requires IsStep(s, step, s', session) && step.EndLookup?
    ensures var before, after, hit := s.cache.stats, s'.cache.stats, Hits(s, step, session);
      && after.hits == before.hits + One(hit) && after.misses == before.misses + One(!hit)
      && after.trackedRequests == before.trackedRequests && after.writes == before.writes
      && after.unexpected == before.unexpected && after.expected == before.expected
      && (!hit ==> after.totalRead == before.totalRead && after.totalCreation == before.totalCreation
                   && s'.cache.previous == s.cache.previous)
  {}

  lemma HitUses<R, B>(s: System<R, B>, step: Step<R, B>, s': System<R, B>, session: Session<R, B>)
    requires IsStep(s, step, s', session) && Hits(s, step, session)
    ensures var usage := s.At(step.t).entry.value.response.usage;
      && s'.cache.stats.totalRead == s.cache.stats.totalRead + usage.cacheRead
      && s'.cache.stats.totalCreation == s.cache.stats.totalCreation + usage.cacheCreation
      && s'.cache.previous == Some(Tracked(step.later, session.hashing.version,
                                           session.hashing.parts(s.At(step.t).request), usage.cacheRead))
  {}

  lemma RecordCounts<R, B>(s: System<R, B>, step: Step<R, B>, s': System<R, B>, session: Session<R, B>)
    requires IsStep(s, step, s', session) && step.RecordUsage?
    ensures var before, after := s.cache.stats, s'.cache.stats;
      && after.hits == before.hits && after.misses == before.misses
      && after.trackedRequests == before.trackedRequests + 1
      && after.writes == before.writes + One(step.response.Some?)
      && after.unexpected == before.unexpected + One(Unexpected(s.cache.previous, step, session))
      && after.expected == before.expected + One(Expected(s.cache.previous, step, session))
      && after.totalRead == before.totalRead + step.usage.cacheRead
      && after.totalCreation == before.totalCreation + step.usage.cacheCreation
      && s'.cache.previous == Some(Tracked(step.now, session.hashing.version,
                                           session.hashing.parts(step.request), step.usage.cacheRead))
  {
    BreakExactly(session.config, s.cache.previous,
                 TrackedFrom(step.request, step.usage, step.now, session.hashing));
  }

  /** In every run, under any interleaving: the cache remembers the last request that was recorded or answered
      from a file, and every counter counts what it is named for. */
  lemma {:induction false} RunsCounted<R, B>(states: seq<System<R, B>>, steps: seq<Step<R, B>>, n: nat,
                                             session: Session<R, B>)
    requires IsRun(states, steps, session) && n <= |steps|
    ensures states[n].cache.previous == Remembered(states, steps, n, session)
    ensures Counted(states[n].cache.stats, session.persisted.stats, Tallied(states, steps, n, session))
  {
    if n > 0 {
      RunsCounted(states, steps, n - 1, session);
      assert IsStep(states[n - 1], steps[n - 1], states[n], session);
      if steps[n - 1].EndLookup? {
        LookupCounts(states[n - 1], steps[n - 1], states[n], session);
        if Hits(states[n - 1], steps[n - 1], session) {
          HitUses(states[n - 1], steps[n - 1], states[n], session);
        }
      } else if steps[n - 1].RecordUsage? {
        RecordCounts(states[n - 1], steps[n - 1], states[n], session);
      }
    }
  }

  /** What the statistics tell about the last use: its tokens, its request and where it came from; every
      lookup leaves the key it asked for, and every break its reason. */
  lemma LastUse<R, B>(s: System<R, B>, step: Step<R, B>, s': System<R, B>, session: Session<R, B>)
    requires IsStep(s, step, s', session) && Used(s, step, session).Some?
    ensures var stats, usage := s'.cache.stats, Used(s, step, session).value;
      && stats.lastRead == Some(usage.cacheRead) && stats.lastCreation == Some(usage.cacheCreation)
      && stats.lastRequest
         == Some(session.hashing.key(if step.RecordUsage? then step.request else s.At(step.t).request))
      && stats.lastSource == Some(if step.RecordUsage? then "api-response" else "completion-cache")
    ensures step.EndLookup? ==> s'.cache.stats.lastCompletionKey == Some(session.hashing.key(s.At(step.t).request))
  {}

  /** A session in which one request is recorded twice, a second apart, and the second time without any
      cached token: that is one unexpected break. */
  lemma OneUnexpected<R, B>(request: R, config: Config, hashing: Hashing<R>)
    requires config.minDrop == 2000 && config.promptTtl == 300
    ensures var empty: Cache<B> := Cache(EMPTY_STATS, None, map[]);
      var once := Record(empty, request, Usage(0, 0, 5000, 0), None, 0, 0, config, hashing);
      var twice := Record(once, request, Usage(0, 0, 0, 0), None, 1, 1, config, hashing);
      twice.stats.unexpected == 1 && twice.stats.expected == 0
  {}
}
