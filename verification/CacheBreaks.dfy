/** How many prompt-cache breaks a session can count for the cached tokens it has read. */
module CacheBreaks {
  import opened Wrappers
  import opened PromptCache

  function Breaks(stats: Stats): nat {
    stats.expected + stats.unexpected
  }

  function PreviousRead<B>(cache: Cache<B>): nat {
    if cache.previous.Some? then cache.previous.value.cacheRead else 0
  }

  /** The previous request was recorded by another version of the program. */
  predicate Outdated<B>(cache: Cache<B>, version: nat) {
    cache.previous.Some? && cache.previous.value.version != version
  }

  /** Each break, less `free` of them, has been paid for by cached tokens read, and so has the next
      drop of what the previous request read. */
  ghost predicate Amortised<B>(cache: Cache<B>, free: nat, config: Config) {
    Breaks(cache.stats) * config.minDrop + PreviousRead(cache) <= cache.stats.totalRead + free * config.minDrop
  }

  ghost predicate Bounded<B>(cache: Cache<B>, config: Config) {
    Breaks(cache.stats) * config.minDrop <= cache.stats.totalRead
  }

  lemma OneMore(n: nat, m: nat)
    ensures (n + 1) * m == n * m + m
  {}

  lemma NoCost(n: nat, m: nat)
    ensures n == 0 ==> n * m == 0
    ensures m == 0 ==> n * m == 0
  {}

  // ---- What one call does ----

  /** What the bound is about: a request adds the cached tokens it read, and a break exactly if one is
      detected. */
  lemma RecordEffect<R, B>(cache: Cache<B>, request: R, usage: Usage, response: Option<Response<B>>,
                           now: nat, written: nat, session: Session<R, B>)
    ensures var after := Record(cache, request, usage, response, now, written, session.config, session.hashing);
      && after.stats.totalRead == cache.stats.totalRead + usage.cacheRead == cache.stats.totalRead + PreviousRead(after)
      && !Outdated(after, session.hashing.version)
      && Breaks(after.stats) == Breaks(cache.stats)
           + if cache.previous.Some?
                && (Outdated(cache, session.hashing.version)
                    || session.config.minDrop == 0 || usage.cacheRead + session.config.minDrop <= PreviousRead(cache))
             then 1 else 0
  {}

  lemma LookupEffect<R, B>(cache: Cache<B>, request: R, entry: Option<Entry<B>>, now: nat, later: nat,
                           session: Session<R, B>)
    ensures var after := FinishLookup(cache, request, entry, now, later, session.config, session.hashing).0;
      && Breaks(after.stats) == Breaks(cache.stats)
      && ((after.stats.totalRead == cache.stats.totalRead && after.previous == cache.previous)
          || (after.stats.totalRead == cache.stats.totalRead + PreviousRead(after)
              && !Outdated(after, session.hashing.version)))
  {}

  // ---- The amortised bound ----

  /** Inside a session: one break is free from when the outdated request it may have been opened with
      is replaced. */
  ghost predicate AmortisedInside<B>(cache: Cache<B>, free: nat, freed: nat, config: Config, version: nat) {
    if Outdated(cache, version) then freed == 1 && Amortised(cache, free, config)
    else Amortised(cache, free + freed, config)
  }

  lemma AmortisedRecord(b: nat, b': nat, m: nat, p: nat, p': nat, total: nat, free: nat, freed: nat, outdated: bool)
    requires b * m + p <= total + (if outdated then free else free + freed) * m
    requires outdated ==> freed == 1
    requires b' == b || (b' == b + 1 && (outdated || m == 0 || p' + m <= p))
    ensures b' * m + p' <= total + p' + (free + freed) * m
  {
    OneMore(b, m);
    OneMore(free, m);
    NoCost(b, m);
    NoCost(free + freed, m);
  }

  lemma StepAmortised<R, B>(s: System<R, B>, step: Step<R, B>, s': System<R, B>, free: nat, freed: nat,
                            session: Session<R, B>)
    requires IsStep(s, step, s', session)
    requires AmortisedInside(s.cache, free, freed, session.config, session.hashing.version)
    ensures AmortisedInside(s'.cache, free, freed, session.config, session.hashing.version)
  {
    var b, m, p, total := Breaks(s.cache.stats), session.config.minDrop, PreviousRead(s.cache), s.cache.stats.totalRead;
    var outdated := Outdated(s.cache, session.hashing.version);
    match step
    case BeginLookup(_, _, _) =>
    case EndLookup(t, now, later) =>
      LookupEffect(s.cache, s.At(t).request, s.At(t).entry, now, later, session);
      AmortisedRecord(b, b, m, p, PreviousRead(s'.cache), total, free, freed, outdated);
    case RecordUsage(request, usage, response, now, written) =>
      RecordEffect(s.cache, request, usage, response, now, written, session);
      AmortisedRecord(b, Breaks(s'.cache.stats), m, p, PreviousRead(s'.cache), total, free, freed, outdated);
  }

  /** In every run of a session, under any interleaving: breaks times the least drop, plus what the
      previous request read, never exceed the cached tokens read, less the breaks that were free
      before, and one more if the session was opened with a request of another version. */
  lemma {:induction false} RunsAmortised<R, B>(states: seq<System<R, B>>, steps: seq<Step<R, B>>, free: nat,
                                               session: Session<R, B>)
    requires IsRun(states, steps, session) && Amortised(session.persisted, free, session.config)
    ensures var freed := if Outdated(session.persisted, session.hashing.version) then 1 else 0;
      && AmortisedInside(states[|steps|].cache, free, freed, session.config, session.hashing.version)
      && Amortised(states[|steps|].cache, free + freed, session.config)
    decreases |steps|
  {
    var freed := if Outdated(session.persisted, session.hashing.version) then 1 else 0;
    if steps != [] {
      var n := |steps| - 1;
      assert IsRun(states[..n + 1], steps[..n], session);
      RunsAmortised(states[..n + 1], steps[..n], free, session);
      assert IsStep(states[n], steps[n], states[n + 1], session);
      StepAmortised(states[n], steps[n], states[n + 1], free, freed, session);
    }
    OneMore(free, session.config.minDrop);
  }

  /** A session that nothing was persisted for starts with no break at all. */
  lemma EmptyAmortised<B>(config: Config)
    ensures Amortised<B>(Cache(EMPTY_STATS, None, map[]), 0, config)
  {
    var stats := EMPTY_STATS;
    assert stats.expected == 0 && stats.unexpected == 0;
    NoneAmortised<B>(Cache(stats, None, map[]), config);
  }

  lemma NoneAmortised<B>(cache: Cache<B>, config: Config)
    requires cache.previous == None && cache.stats.expected == 0 && cache.stats.unexpected == 0
    ensures Amortised(cache, 0, config)
  {
    NoCost(Breaks(cache.stats), config.minDrop);
  }

  // ---- When the bound holds ----

  /** One more break could follow at once, without any token read. */
  predicate BreakAtHand<B>(cache: Cache<B>, config: Config, version: nat) {
    cache.previous.Some?
    && (cache.previous.value.version != version || config.minDrop <= cache.previous.value.cacheRead)
  }

  /** The breaks so far are paid for, and so is the break at hand, if there is one. */
  ghost predicate Safe<B>(cache: Cache<B>, config: Config, version: nat) {
    && Bounded(cache, config)
    && (BreakAtHand(cache, config, version) ==> (Breaks(cache.stats) + 1) * config.minDrop <= cache.stats.totalRead)
  }

  ghost predicate RunsStayBounded<R(!new), B(!new)>(session: Session<R, B>) {
    forall states: seq<System<R, B>>, steps: seq<Step<R, B>> | IsRun(states, steps, session) ::
      Bounded(states[|steps|].cache, session.config)
  }

  lemma SafeRecord(b: nat, b': nat, m: nat, read: nat, total: nat, atHand: bool)
    requires b * m <= total && (atHand ==> (b + 1) * m <= total)
    requires b' == b || (b' == b + 1 && (atHand || m == 0))
    ensures b' * m <= total + read && (m <= read ==> (b' + 1) * m <= total + read)
  {
    OneMore(b, m);
    OneMore(b + 1, m);
    NoCost(b, m);
    NoCost(b + 1, m);
    NoCost(b + 2, m);
  }

  lemma StepSafe<R, B>(s: System<R, B>, step: Step<R, B>, s': System<R, B>, session: Session<R, B>)
    requires IsStep(s, step, s', session) && Safe(s.cache, session.config, session.hashing.version)
    ensures Safe(s'.cache, session.config, session.hashing.version)
  {
    var b, m, total := Breaks(s.cache.stats), session.config.minDrop, s.cache.stats.totalRead;
    var atHand := BreakAtHand(s.cache, session.config, session.hashing.version);
    match step
    case BeginLookup(_, _, _) =>
    case EndLookup(t, now, later) =>
      LookupEffect(s.cache, s.At(t).request, s.At(t).entry, now, later, session);
      SafeRecord(b, b, m, PreviousRead(s'.cache), total, atHand);
    case RecordUsage(request, usage, response, now, written) =>
      RecordEffect(s.cache, request, usage, response, now, written, session);
      SafeRecord(b, Breaks(s'.cache.stats), m, usage.cacheRead, total, atHand);
  }

  lemma {:induction false} RunsSafe<R, B>(states: seq<System<R, B>>, steps: seq<Step<R, B>>, session: Session<R, B>)
    requires IsRun(states, steps, session) && Safe(session.persisted, session.config, session.hashing.version)
    ensures Safe(states[|steps|].cache, session.config, session.hashing.version)
    decreases |steps|
  {
    if steps != [] {
      var n := |steps| - 1;
      assert IsRun(states[..n + 1], steps[..n], session);
      RunsSafe(states[..n + 1], steps[..n], session);
      assert IsStep(states[n], steps[n], states[n + 1], session);
      StepSafe(states[n], steps[n], states[n + 1], session);
    }
  }

  /** A request that reads nothing from the cache counts the break at hand. */
  lemma UnsafeRun<R, B>(request: R, session: Session<R, B>) returns (states: seq<System<R, B>>, steps: seq<Step<R, B>>)
    requires !Safe(session.persisted, session.config, session.hashing.version)
    ensures IsRun(states, steps, session) && !Bounded(states[|steps|].cache, session.config)
  {
    var s := System(session.persisted, map[], 0, 0, 0);
    if !Bounded(session.persisted, session.config) {
      states, steps := [s], [];
    } else {
      var step: Step<R, B> := RecordUsage(request, Usage(0, 0, 0, 0), None, session.openedAt, session.openedAt);
      var s' := Do(s, step, session.config, session.hashing);
      RecordEffect(s.cache, request, Usage(0, 0, 0, 0), None, session.openedAt, session.openedAt, session);
      assert IsStep(s, step, s', session);
      states, steps := [s, s'], [step];
    }
  }

  /** Whatever was persisted: every run of the session keeps the bound if and only if the breaks so far
      are paid for, and one more is paid for in case the previous request was recorded by another
      version or read at least the least drop. */
  lemma BoundExactly<R(!new), B(!new)>(request: R, session: Session<R, B>)
    ensures RunsStayBounded(session) <==> Safe(session.persisted, session.config, session.hashing.version)
  {
    if Safe(session.persisted, session.config, session.hashing.version) {
      forall states: seq<System<R, B>>, steps: seq<Step<R, B>> | IsRun(states, steps, session)
        ensures Bounded(states[|steps|].cache, session.config)
      {
        RunsSafe(states, steps, session);
      }
    } else {
      var states, steps := UnsafeRun(request, session);
    }
  }

  /** After sessions of one version, only a version change is left to fear: the bound holds in every
      run if and only if no request is remembered, or it has the running version, or one more break is
      paid for. */
  lemma BoundAfterVersionChange<R(!new), B(!new)>(request: R, session: Session<R, B>)
    requires Amortised(session.persisted, 0, session.config)
    ensures RunsStayBounded(session)
       <==> || session.persisted.previous == None
            || session.persisted.previous.value.version == session.hashing.version
            || (Breaks(session.persisted.stats) + 1) * session.config.minDrop <= session.persisted.stats.totalRead
  {
    BoundExactly(request, session);
    OneMore(Breaks(session.persisted.stats), session.config.minDrop);
    NoCost(0, session.config.minDrop);
  }

  /** It can fail: a session of the older version recorded one request that read nothing from the
      cache, and the newer version records the same request. */
  lemma VersionChangeUnbounded<R(!new), B(!new)>(request: R, config: Config, older: Hashing<R>, newer: Hashing<R>)
    requires config.minDrop > 0 && older.version != newer.version
    ensures var nothing := Usage(0, 0, 0, 0);
      var left := Record<R, B>(Cache(EMPTY_STATS, None, map[]), request, nothing, None, 0, 0, config, older);
      && Amortised(left, 0, config)
      && !RunsStayBounded(Session(config, newer, left, 0))
  {
    var empty: Cache<B> := Cache(EMPTY_STATS, None, map[]);
    assert EMPTY_STATS.expected == 0 && EMPTY_STATS.unexpected == 0 && EMPTY_STATS.totalRead == 0;
    VersionChangeFrom(empty, request, config, older, newer);
  }

  lemma VersionChangeFrom<R(!new), B(!new)>(empty: Cache<B>, request: R, config: Config, older: Hashing<R>,
                                            newer: Hashing<R>)
    requires config.minDrop > 0 && older.version != newer.version
    requires empty.previous == None && empty.stats.expected == empty.stats.unexpected == empty.stats.totalRead == 0
    ensures var left := Record<R, B>(empty, request, Usage(0, 0, 0, 0), None, 0, 0, config, older);
      Amortised(left, 0, config) && !RunsStayBounded(Session(config, newer, left, 0))
  {
    var nothing := Usage(0, 0, 0, 0);
    RecordEffect(empty, request, nothing, None, 0, 0, Session(config, older, empty, 0));
    NothingPaid(request, Session(config, newer, Record<R, B>(empty, request, nothing, None, 0, 0, config, older), 0));
  }

  lemma NothingPaid<R(!new), B(!new)>(request: R, session: Session<R, B>)
    requires session.config.minDrop > 0 && Outdated(session.persisted, session.hashing.version)
    requires Breaks(session.persisted.stats) == PreviousRead(session.persisted) == 0
    requires session.persisted.stats.totalRead == 0
    ensures Amortised(session.persisted, 0, session.config) && !RunsStayBounded(session)
  {
    NoCost(Breaks(session.persisted.stats), session.config.minDrop);
    NoCost(0, session.config.minDrop);
    OneMore(Breaks(session.persisted.stats), session.config.minDrop);
    BoundAfterVersionChange(request, session);
  }
}
