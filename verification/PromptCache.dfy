/** The prompt cache: completions with a time to live, usage statistics, the detection of
    prompt-cache breaks, and the runs of several threads over it. */
module PromptCache {
  import opened Wrappers

  datatype Usage = Usage(inputTokens: nat, cacheCreation: nat, cacheRead: nat, outputTokens: nat)

  datatype Response<+B> = Response(body: B, usage: Usage)

  datatype Fingerprints = Fingerprints(model: nat, system: nat, tools: nat, messages: nat)

  /** The fingerprint version of the running program, and the two hashes of a request: of the whole,
      which names its completion file, and by part. */
  datatype Hashing<!R> = Hashing(version: nat, key: R -> string, parts: R -> Fingerprints)

  datatype Config = Config(completionTtl: nat, promptTtl: nat, minDrop: nat)

  datatype Tracked = Tracked(observedAt: nat, version: nat, parts: Fingerprints, cacheRead: nat)

  datatype Entry<+B> = Entry(cachedAt: nat, version: nat, response: Response<B>)

  datatype Reason =
    | VersionChanged(before: nat, now: nat)
    | Changed(model: bool, system: bool, tools: bool, messages: bool)
    | PossibleExpiry(elapsed: nat)
    | Unexplained

  datatype BreakEvent = BreakEvent(unexpected: bool, reason: Reason, previousRead: nat, currentRead: nat, drop: nat)

  datatype Stats = Stats(
    trackedRequests: nat, hits: nat, misses: nat, writes: nat, expected: nat, unexpected: nat,
    totalCreation: nat, totalRead: nat,
    lastCreation: Option<nat>, lastRead: Option<nat>, lastRequest: Option<string>,
    lastCompletionKey: Option<string>, lastBreakReason: Option<Reason>, lastSource: Option<string>)

  /** What the mutex guards, and the completion files. */
  datatype Cache<+B> = Cache(stats: Stats, previous: Option<Tracked>, files: map<string, Entry<B>>)

  const EMPTY_STATS := Stats(0, 0, 0, 0, 0, 0, 0, 0, None, None, None, None, None, None)

  function SaturatingSub(a: nat, b: nat): nat { if a < b then 0 else a - b }

  function TrackedFrom<R>(request: R, usage: Usage, now: nat, hashing: Hashing<R>): Tracked {
    Tracked(now, hashing.version, hashing.parts(request), usage.cacheRead)
  }

  /** `detect_cache_break`. */
  function DetectBreak(config: Config, previous: Option<Tracked>, current: Tracked): Option<BreakEvent> {
    match previous
    case None => None
    case Some(p) =>
      var drop := SaturatingSub(p.cacheRead, current.cacheRead);
      if p.version != current.version then
        Some(BreakEvent(false, VersionChanged(p.version, current.version), p.cacheRead, current.cacheRead, drop))
      else if drop < config.minDrop then None
      else
        var changed := Changed(p.parts.model != current.parts.model, p.parts.system != current.parts.system,
                               p.parts.tools != current.parts.tools, p.parts.messages != current.parts.messages);
        var elapsed := SaturatingSub(current.observedAt, p.observedAt);
        var reason :=
          if p.parts != current.parts then changed
          else if elapsed > config.promptTtl then PossibleExpiry(elapsed)
          else Unexplained;
        Some(BreakEvent(reason == Unexplained, reason, p.cacheRead, current.cacheRead, drop))
  }

  function WithUsage(stats: Stats, usage: Usage, key: string, source: string): Stats {
    stats.(totalCreation := stats.totalCreation + usage.cacheCreation,
           totalRead := stats.totalRead + usage.cacheRead,
           lastCreation := Some(usage.cacheCreation), lastRead := Some(usage.cacheRead),
           lastRequest := Some(key), lastSource := Some(source))
  }

  function WithBreak(stats: Stats, event: Option<BreakEvent>): Stats {
    match event
    case None => stats
    case Some(e) =>
      (if e.unexpected then stats.(unexpected := stats.unexpected + 1) else stats.(expected := stats.expected + 1))
        .(lastBreakReason := Some(e.reason))
  }

  /** `record_usage_internal`, which runs under the lock as a whole. `now` and `written` are its
      two readings of the clock. */
  function Record<R, B>(cache: Cache<B>, request: R, usage: Usage, response: Option<Response<B>>,
                        now: nat, written: nat, config: Config, hashing: Hashing<R>): Cache<B>
  {
    var key := hashing.key(request);
    var current := TrackedFrom(request, usage, now, hashing);
    var event := DetectBreak(config, cache.previous, current);
    var tracked := cache.stats.(trackedRequests := cache.stats.trackedRequests + 1);
    var stats := WithBreak(WithUsage(tracked, usage, key, "api-response"), event);
    match response
    case None => Cache(stats, Some(current), cache.files)
    case Some(r) =>
      Cache(stats.(writes := stats.writes + 1), Some(current), cache.files[key := Entry(written, hashing.version, r)])
  }

  function ReadEntry<R, B>(cache: Cache<B>, request: R, hashing: Hashing<R>): Option<Entry<B>> {
    var key := hashing.key(request);
    if key in cache.files then Some(cache.files[key]) else None
  }

  predicate Fresh<B>(entry: Entry<B>, now: nat, config: Config, version: nat) {
    entry.version == version && SaturatingSub(now, entry.cachedAt) < config.completionTtl
  }

  /** The second half of `lookup_completion`, under the lock, with the entry read before taking it. */
  function FinishLookup<R, B>(cache: Cache<B>, request: R, entry: Option<Entry<B>>, now: nat, later: nat,
                              config: Config, hashing: Hashing<R>): (Cache<B>, Option<Response<B>>)
  {
    var key := hashing.key(request);
    var stats := cache.stats.(lastCompletionKey := Some(key));
    if entry.None? then (cache.(stats := stats.(misses := stats.misses + 1)), None)
    else if !Fresh(entry.value, now, config, hashing.version) then
      (Cache(stats.(misses := stats.misses + 1), cache.previous, cache.files - {key}), None)
    else
      var response := entry.value.response;
      (Cache(WithUsage(stats.(hits := stats.hits + 1), response.usage, key, "completion-cache"),
             Some(TrackedFrom(request, response.usage, later, hashing)), cache.files),
       Some(response))
  }

  // ---- The code, called from one thread ----

  class PromptCache<R, B> {
    const config: Config
    const hashing: Hashing<R>
    var stats: Stats
    var previous: Option<Tracked>
    var files: map<string, Entry<B>>

    ghost function State(): Cache<B>
      reads this
    {
      Cache(stats, previous, files)
    }

    constructor (config: Config, hashing: Hashing<R>, persisted: Cache<B>)
      ensures this.config == config && this.hashing == hashing && State() == persisted
    {
      this.config, this.hashing := config, hashing;
      stats, previous, files := persisted.stats, persisted.previous, persisted.files;
    }

    method LookupCompletion(request: R, now: nat, later: nat) returns (r: Option<Response<B>>)
      modifies this
      ensures var before := old(State());
        (State(), r) == FinishLookup(before, request, ReadEntry(before, request, hashing), now, later, config, hashing)
    {
      var key := hashing.key(request);
      if key !in files {
        stats := stats.(misses := stats.misses + 1, lastCompletionKey := Some(key));
        return None;
      }
      var entry := files[key];
      if entry.version != hashing.version {
        stats := stats.(misses := stats.misses + 1, lastCompletionKey := Some(key));
        files := files - {key};
        return None;
      }
      var expired := SaturatingSub(now, entry.cachedAt) >= config.completionTtl;
      stats := stats.(lastCompletionKey := Some(key));
      if expired {
        stats := stats.(misses := stats.misses + 1);
        files := files - {key};
        return None;
      }
      stats := WithUsage(stats.(hits := stats.hits + 1), entry.response.usage, key, "completion-cache");
      previous := Some(TrackedFrom(request, entry.response.usage, later, hashing));
      return Some(entry.response);
    }

    method RecordUsage(request: R, usage: Usage, response: Option<Response<B>>, now: nat, written: nat)
      returns (event: Option<BreakEvent>)
      modifies this
      ensures State() == Record(old(State()), request, usage, response, now, written, config, hashing)
      ensures event == DetectBreak(config, old(previous), TrackedFrom(request, usage, now, hashing))
    {
      var key := hashing.key(request);
      var current := TrackedFrom(request, usage, now, hashing);
      event := DetectBreak(config, previous, current);
      stats := WithUsage(stats.(trackedRequests := stats.trackedRequests + 1), usage, key, "api-response");
      if event.Some? {
        if event.value.unexpected {
          stats := stats.(unexpected := stats.unexpected + 1);
        } else {
          stats := stats.(expected := stats.expected + 1);
        }
        stats := stats.(lastBreakReason := Some(event.value.reason));
      }
      previous := Some(current);
      if response.Some? {
        files := files[key := Entry(written, hashing.version, response.value)];
        stats := stats.(writes := stats.writes + 1);
      }
    }
  }

  /** A break is reported exactly when the version changed or the cached tokens read fell by the
      least drop, and it is unexpected exactly when nothing explains it: the same version, the same
      prompt, within the time to live. */
  lemma BreakExactly(config: Config, previous: Option<Tracked>, current: Tracked)
    ensures var event := DetectBreak(config, previous, current);
      && (event.Some? <==>
            && previous.Some?
            && (previous.value.version != current.version
                || config.minDrop == 0 || current.cacheRead + config.minDrop <= previous.value.cacheRead))
      && (event.Some? ==>
            (event.value.unexpected <==>
               && previous.value.version == current.version
               && previous.value.parts == current.parts
               && current.observedAt <= previous.value.observedAt + config.promptTtl))
  {}

  /** What a reported break says: the tokens read before and now, and why. A change of version comes before
      all other reasons; then every part of the prompt that changed is named; a prompt that did not change
      may have expired. */
  lemma BreakSaysWhy(config: Config, previous: Tracked, current: Tracked)
    requires DetectBreak(config, Some(previous), current).Some?
    ensures var event := DetectBreak(config, Some(previous), current).value;
      && event.previousRead == previous.cacheRead && event.currentRead == current.cacheRead
      && event.drop == (if current.cacheRead < previous.cacheRead then previous.cacheRead - current.cacheRead else 0)
      && (event.reason.VersionChanged? <==> previous.version != current.version)
      && (event.reason.VersionChanged? ==> event.reason == VersionChanged(previous.version, current.version))
      && (event.reason.Changed? <==> previous.version == current.version && previous.parts != current.parts)
      && (event.reason.Changed? ==>
            && (event.reason.model <==> previous.parts.model != current.parts.model)
            && (event.reason.system <==> previous.parts.system != current.parts.system)
            && (event.reason.tools <==> previous.parts.tools != current.parts.tools)
            && (event.reason.messages <==> previous.parts.messages != current.parts.messages))
      && (event.reason.PossibleExpiry? ==> event.reason.elapsed == current.observedAt - previous.observedAt)
  {}

  // ---- Any interleaving of threads ----

  /** What a session is opened with: its settings, and the statistics, the previous request and the
      files that an earlier session left. */
  datatype Session<!R, +B> = Session(config: Config, hashing: Hashing<R>, persisted: Cache<B>, openedAt: nat)

  /** A lookup reads its file before it takes the lock. The read is torn if a record is just then writing
      the file, which is truncated first: what is found does not parse, and counts as no entry. */
  datatype Pc<+R, +B> = Idle | Looking(request: R, entry: Option<Entry<B>>)

  /** The counters are history variables: completed lookups, records, and recorded responses. */
  datatype System<R, B> = System(
    cache: Cache<B>, threads: map<nat, Pc<R, B>>, lookups: nat, records: nat, responses: nat)
  {
    function At(t: nat): Pc<R, B> {
      if t in threads then threads[t] else Idle
    }
  }

  /** `now` of a lookup is read before it takes the lock, `later` is the time when it has it; a record
      reads both of its times under the lock. */
  datatype Step<+R, +B> =
    | BeginLookup(t: nat, request: R, torn: bool)
    | EndLookup(t: nat, now: nat, later: nat)
    | RecordUsage(request: R, usage: Usage, response: Option<Response<B>>, now: nat, written: nat)

  predicate Enabled<R, B>(s: System<R, B>, step: Step<R, B>) {
    match step
    case BeginLookup(t, _, _) => s.At(t).Idle?
    case EndLookup(t, _, _) => s.At(t).Looking?
    case RecordUsage(_, _, _, _, _) => true
  }

  function Do<R, B>(s: System<R, B>, step: Step<R, B>, config: Config, hashing: Hashing<R>): System<R, B>
    requires Enabled(s, step)
  {
    match step
    case BeginLookup(t, request, torn) =>
      var entry := if torn then None else ReadEntry(s.cache, request, hashing);
      s.(threads := s.threads[t := Looking(request, entry)])
    case EndLookup(t, now, later) =>
      var pc := s.At(t);
      s.(cache := FinishLookup(s.cache, pc.request, pc.entry, now, later, config, hashing).0,
         threads := s.threads[t := Idle], lookups := s.lookups + 1)
    case RecordUsage(request, usage, response, now, written) =>
      s.(cache := Record(s.cache, request, usage, response, now, written, config, hashing),
         records := s.records + 1, responses := s.responses + (if response.Some? then 1 else 0))
  }

  ghost predicate IsStep<R, B>(before: System<R, B>, step: Step<R, B>, after: System<R, B>, session: Session<R, B>) {
    Enabled(before, step) && after == Do(before, step, session.config, session.hashing)
  }

  ghost predicate IsRun<R, B>(states: seq<System<R, B>>, steps: seq<Step<R, B>>, session: Session<R, B>) {
    && |states| == |steps| + 1
    && states[0] == System(session.persisted, map[], 0, 0, 0)
    && forall i | 0 <= i < |steps| :: IsStep(states[i], steps[i], states[i + 1], session)
  }
}
