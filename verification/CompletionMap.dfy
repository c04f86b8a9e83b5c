/** The completion cache as a map: exactly when its files stand for the responses recorded last. */
module CompletionMap {
  import opened Wrappers
  import opened PromptCache

  // ---- One lookup ----

  /** What a cache shows under a key at a given time. */
  function View<B>(cache: Cache<B>, key: string, at: nat, config: Config, version: nat): Option<Response<B>> {
    if key in cache.files && Fresh(cache.files[key], at, config, version) then Some(cache.files[key].response) else None
  }

  /** Finishing a lookup leaves what the cache shows, at any time, unchanged if and only if it did not
      read an entry that has expired where by then there is a fresh one. */
  lemma LookupKeepsView<R, B>(cache: Cache<B>, request: R, entry: Option<Entry<B>>, now: nat, later: nat, at: nat,
                              config: Config, hashing: Hashing<R>)
    ensures var after := FinishLookup(cache, request, entry, now, later, config, hashing).0;
      (forall key :: View(after, key, at, config, hashing.version) == View(cache, key, at, config, hashing.version))
      <==> !(entry.Some? && !Fresh(entry.value, now, config, hashing.version)
             && View(cache, hashing.key(request), at, config, hashing.version).Some?)
  {
    var after := FinishLookup(cache, request, entry, now, later, config, hashing).0;
    assert View(after, hashing.key(request), at, config, hashing.version)
        == if entry.Some? && !Fresh(entry.value, now, config, hashing.version) then None
           else View(cache, hashing.key(request), at, config, hashing.version);
  }

  // ---- The map ----

  /** The response a step records under a key, and when. */
  function Recording<R, B>(step: Step<R, B>, key: string, hashing: Hashing<R>): Option<(nat, Response<B>)> {
    if step.RecordUsage? && step.response.Some? && hashing.key(step.request) == key
    then Some((step.written, step.response.value))
    else None
  }

  /** What the session was opened with under a key: a file of another version counts for nothing. */
  function Persisted<R, B>(key: string, session: Session<R, B>): Option<(nat, Response<B>)> {
    var files := session.persisted.files;
    if key in files && files[key].version == session.hashing.version
    then Some((files[key].cachedAt, files[key].response))
    else None
  }

  /** The last response recorded under a key, and when: the map that the cache stands for. */
  function LastRecorded<R, B>(steps: seq<Step<R, B>>, key: string, session: Session<R, B>): Option<(nat, Response<B>)> {
    if steps == [] then Persisted(key, session)
    else
      var n := |steps| - 1;
      if Recording(steps[n], key, session.hashing).Some? then Recording(steps[n], key, session.hashing)
      else LastRecorded(steps[..n], key, session)
  }

  function Clock<R, B>(steps: seq<Step<R, B>>, session: Session<R, B>): nat {
    if steps == [] then session.openedAt
    else
      match steps[|steps| - 1]
      case BeginLookup(_, _, _) => Clock(steps[..|steps| - 1], session)
      case EndLookup(_, _, later) => later
      case RecordUsage(_, _, _, _, written) => written
  }

  predicate TimesFollow<R, B>(step: Step<R, B>, clock: nat) {
    match step
    case BeginLookup(_, _, _) => true
    case EndLookup(_, now, later) => now <= later && clock <= later
    case RecordUsage(_, _, _, now, written) => clock <= now <= written
  }

  /** The clock never goes back, and no file was written after the session was opened. */
  ghost predicate ClockAdvances<R, B>(steps: seq<Step<R, B>>, session: Session<R, B>) {
    && (forall i | 0 <= i < |steps| :: TimesFollow(steps[i], Clock(steps[..i], session)))
    && (forall key :: Persisted(key, session).Some? ==> Persisted(key, session).value.0 <= session.openedAt)
  }

  /** A file holds the last response recorded under its key; where there is none, that response is
      past its time to live. */
  ghost predicate FileMatches<B>(files: map<string, Entry<B>>, key: string, last: Option<(nat, Response<B>)>,
                                 clock: nat,
                                 config: Config, version: nat)
  {
    match last
    case None => key in files ==> files[key].version != version
    case Some((t, r)) =>
      t <= clock && if key in files then files[key] == Entry(t, version, r) else clock - t >= config.completionTtl
  }

  ghost predicate KeyMatches<R, B>(states: seq<System<R, B>>, steps: seq<Step<R, B>>, i: nat, key: string,
                                   session: Session<R, B>)
    requires i <= |steps| && i < |states|
  {
    FileMatches(states[i].cache.files, key, LastRecorded(steps[..i], key, session), Clock(steps[..i], session),
                session.config, session.hashing.version)
  }

  /** The cache stands for the map before step `i`. */
  ghost predicate RefinesAt<R, B>(states: seq<System<R, B>>, steps: seq<Step<R, B>>, i: nat, session: Session<R, B>)
    requires i <= |steps| && i < |states|
  {
    forall key :: KeyMatches(states, steps, i, key, session)
  }

  lemma PrefixSnoc<T>(s: seq<T>, i: nat)
    requires i < |s|
    ensures s[..i + 1][..i] == s[..i] && s[..i + 1][i] == s[i]
  {}

  // ---- The harmful overlap ----

  /** Step `k` is in or before the lookup that thread `t` is at before step `j`: the thread begins no
      other one in between. */
  ghost predicate NoBeginAfter<R, B>(steps: seq<Step<R, B>>, t: nat, k: int, j: nat)
    requires j <= |steps|
  {
    forall m | 0 <= m && k < m < j :: !(steps[m].BeginLookup? && steps[m].t == t)
  }

  /** While the lookup was on, a response was recorded under the key that is still fresh. */
  ghost predicate RecordedMeanwhile<R, B>(steps: seq<Step<R, B>>, t: nat, key: string, j: nat, at: nat,
                                          session: Session<R, B>)
    requires j <= |steps|
  {
    exists k | 0 <= k < j ::
      && Recording(steps[k], key, session.hashing).Some?
      && at - Recording(steps[k], key, session.hashing).value.0 < session.config.completionTtl
      && NoBeginAfter(steps, t, k, j)
  }

  /** Step `j` ends a lookup whose entry has expired, but was overtaken by a record of the same key. */
  ghost predicate Overtaken<R, B>(states: seq<System<R, B>>, steps: seq<Step<R, B>>, j: nat, session: Session<R, B>)
    requires j < |steps| && |steps| < |states|
  {
    && steps[j].EndLookup?
    && var pc := states[j].At(steps[j].t);
      && pc.Looking? && pc.entry.Some?
      && !Fresh(pc.entry.value, steps[j].now, session.config, session.hashing.version)
      && RecordedMeanwhile(steps, steps[j].t, session.hashing.key(pc.request), j, steps[j].later, session)
  }

  // ---- What a lookup read ----

  /** A thread that is looking began to at some step, and read the file of that moment, unless the read
      was torn. */
  lemma {:induction false} LookupBegan<R, B>(states: seq<System<R, B>>, steps: seq<Step<R, B>>, j: nat, t: nat,
                                             session: Session<R, B>)
    returns (i: nat)
    requires IsRun(states, steps, session) && j <= |steps| && states[j].At(t).Looking?
    ensures i < j && steps[i].BeginLookup? && steps[i].t == t && steps[i].request == states[j].At(t).request
    ensures NoBeginAfter(steps, t, i, j)
    ensures states[j].At(t).entry
         == if steps[i].torn then None else ReadEntry(states[i].cache, states[j].At(t).request, session.hashing)
  {
    assert j > 0;
    assert IsStep(states[j - 1], steps[j - 1], states[j], session);
    if steps[j - 1].BeginLookup? && steps[j - 1].t == t {
      i := j - 1;
    } else {
      assert states[j].At(t) == states[j - 1].At(t);
      i := LookupBegan(states, steps, j - 1, t, session);
    }
  }

  /** Where the last response was recorded; before the first step if it was persisted. */
  lemma {:induction false} LastRecordedAt<R, B>(steps: seq<Step<R, B>>, key: string, j: nat, session: Session<R, B>)
    returns (k: int)
    requires j <= |steps|
    ensures -1 <= k < j
    ensures k >= 0 ==> Recording(steps[k], key, session.hashing).Some?
                       && Recording(steps[k], key, session.hashing) == LastRecorded(steps[..j], key, session)
    ensures forall i | k < i <= j :: LastRecorded(steps[..i], key, session) == LastRecorded(steps[..j], key, session)
  {
    if j == 0 {
      k := -1;
    } else if Recording(steps[j - 1], key, session.hashing).Some? {
      k := j - 1;
    } else {
      PrefixSnoc(steps, j - 1);
      k := LastRecordedAt(steps, key, j - 1, session);
    }
  }

  lemma {:induction false} ClockMonotone<R, B>(steps: seq<Step<R, B>>, i: nat, j: nat, session: Session<R, B>)
    requires ClockAdvances(steps, session) && i <= j <= |steps|
    ensures Clock(steps[..i], session) <= Clock(steps[..j], session)
    decreases j
  {
    if i < j {
      ClockMonotone(steps, i, j - 1, session);
      PrefixSnoc(steps, j - 1);
      assert TimesFollow(steps[j - 1], Clock(steps[..j - 1], session));
    }
  }

  // ---- Without such an overlap the map is refined ----

  /** The lookup that ends deletes nothing that the map still shows. */
  lemma ExpiredForTheMap<R, B>(states: seq<System<R, B>>, steps: seq<Step<R, B>>, j: nat, session: Session<R, B>)
    requires IsRun(states, steps, session)
    requires j < |steps| && steps[j].EndLookup? && !Overtaken(states, steps, j, session)
    requires ClockAdvances(steps, session)
    requires forall i | 0 <= i <= j :: RefinesAt(states, steps, i, session)
    requires var pc := states[j].At(steps[j].t);
      pc.Looking? && pc.entry.Some? && !Fresh(pc.entry.value, steps[j].now, session.config, session.hashing.version)
    ensures var last := LastRecorded(steps[..j], session.hashing.key(states[j].At(steps[j].t).request), session);
      last.Some? ==> steps[j].later - last.value.0 >= session.config.completionTtl
  {
    var t, pc := steps[j].t, states[j].At(steps[j].t);
    var key := session.hashing.key(pc.request);
    var i := LookupBegan(states, steps, j, t, session);
    var k := LastRecordedAt(steps, key, j, session);
    if k > i {
      assert NoBeginAfter(steps, t, k, j);
    } else {
      assert LastRecorded(steps[..i + 1], key, session) == LastRecorded(steps[..j], key, session) by {
        assert k < i + 1 <= j;
      }
      PrefixSnoc(steps, i);
      assert LastRecorded(steps[..i], key, session) == LastRecorded(steps[..j], key, session);
      ClockMonotone(steps, i, j, session);
      assert TimesFollow(steps[j], Clock(steps[..j], session));
      assert RefinesAt(states, steps, i, session);
      assert KeyMatches(states, steps, i, key, session);
    }
  }

  lemma MatchesLater<B>(files: map<string, Entry<B>>, key: string, last: Option<(nat, Response<B>)>, clock: nat,
                        later: nat,
                        config: Config, version: nat)
    requires FileMatches(files, key, last, clock, config, version) && clock <= later
    ensures FileMatches(files, key, last, later, config, version)
  {}

  lemma StepMatches<R, B>(states: seq<System<R, B>>, steps: seq<Step<R, B>>, j: nat, key: string,
                          session: Session<R, B>)
    requires IsRun(states, steps, session) && ClockAdvances(steps, session)
    requires j < |steps| && !Overtaken(states, steps, j, session)
    requires forall i | 0 <= i <= j :: RefinesAt(states, steps, i, session)
    ensures KeyMatches(states, steps, j + 1, key, session)
  {
    var version := session.hashing.version;
    assert IsStep(states[j], steps[j], states[j + 1], session);
    assert TimesFollow(steps[j], Clock(steps[..j], session));
    PrefixSnoc(steps, j);
    assert RefinesAt(states, steps, j, session) && KeyMatches(states, steps, j, key, session);
    MatchesLater(states[j].cache.files, key, LastRecorded(steps[..j], key, session), Clock(steps[..j], session),
                 Clock(steps[..j + 1], session), session.config, version);
    if steps[j].EndLookup? {
      var pc := states[j].At(steps[j].t);
      if pc.entry.Some? && !Fresh(pc.entry.value, steps[j].now, session.config, version) {
        ExpiredForTheMap(states, steps, j, session);
      }
    }
  }

  lemma OpenedMatches<R, B>(states: seq<System<R, B>>, steps: seq<Step<R, B>>, key: string, session: Session<R, B>)
    requires IsRun(states, steps, session) && ClockAdvances(steps, session)
    ensures KeyMatches(states, steps, 0, key, session)
  {
    assert LastRecorded(steps[..0], key, session) == Persisted(key, session);
  }

  lemma {:induction false} RefinesUpTo<R, B>(states: seq<System<R, B>>, steps: seq<Step<R, B>>, n: nat,
                                             session: Session<R, B>)
    requires IsRun(states, steps, session) && ClockAdvances(steps, session) && n <= |steps|
    requires forall j | 0 <= j < n :: !Overtaken(states, steps, j, session)
    ensures forall i | 0 <= i <= n :: RefinesAt(states, steps, i, session)
  {
    if n > 0 {
      RefinesUpTo(states, steps, n - 1, session);
    }
    forall key
      ensures KeyMatches(states, steps, n, key, session)
    {
      if n == 0 {
        OpenedMatches(states, steps, key, session);
      } else {
        StepMatches(states, steps, n - 1, key, session);
      }
    }
  }

  // ---- With one it is not ----

  lemma RecordingIsLast<R, B>(steps: seq<Step<R, B>>, key: string, k: nat, session: Session<R, B>)
    requires k < |steps| && Recording(steps[k], key, session.hashing).Some?
    ensures LastRecorded(steps[..k + 1], key, session) == Recording(steps[k], key, session.hashing)
    ensures Clock(steps[..k + 1], session) == Recording(steps[k], key, session.hashing).value.0
  {
    PrefixSnoc(steps, k);
  }

  /** What is recorded stays, or is replaced by something later. */
  lemma RecordedLater<R, B>(steps: seq<Step<R, B>>, key: string, k: nat, j: nat, session: Session<R, B>)
    requires ClockAdvances(steps, session) && k < j <= |steps| && Recording(steps[k], key, session.hashing).Some?
    ensures LastRecorded(steps[..j], key, session).Some?
    ensures Recording(steps[k], key, session.hashing).value.0 <= LastRecorded(steps[..j], key, session).value.0
  {
    var last := LastRecordedAt(steps, key, j, session);
    RecordingIsLast(steps, key, k, session);
    if last >= k {
      RecordingIsLast(steps, key, last, session);
      ClockMonotone(steps, k + 1, last + 1, session);
    }
  }

  lemma OvertakenBreaks<R, B>(states: seq<System<R, B>>, steps: seq<Step<R, B>>, j: nat, session: Session<R, B>)
    requires IsRun(states, steps, session) && ClockAdvances(steps, session)
    requires j < |steps| && Overtaken(states, steps, j, session)
    ensures !RefinesAt(states, steps, j + 1, session)
  {
    var key := session.hashing.key(states[j].At(steps[j].t).request);
    StillFresh(steps, steps[j].t, key, j, steps[j].later, session);
    OvertakenDeletes(states[j], steps[j], states[j + 1], session);
    MissingThough(states[j + 1].cache.files, key, LastRecorded(steps[..j], key, session), steps[j].later, session);
    LookupChangesNoMap(steps, j, key, session);
    assert !KeyMatches(states, steps, j + 1, key, session);
  }

  /** A missing file does not match a response that is still fresh. */
  lemma MissingThough<R, B>(files: map<string, Entry<B>>, key: string, last: Option<(nat, Response<B>)>, at: nat,
                            session: Session<R, B>)
    requires key !in files && last.Some? && at - last.value.0 < session.config.completionTtl
    ensures !FileMatches(files, key, last, at, session.config, session.hashing.version)
  {}

  lemma LookupChangesNoMap<R, B>(steps: seq<Step<R, B>>, j: nat, key: string, session: Session<R, B>)
    requires j < |steps| && steps[j].EndLookup?
    ensures LastRecorded(steps[..j + 1], key, session) == LastRecorded(steps[..j], key, session)
    ensures Clock(steps[..j + 1], session) == steps[j].later
  {
    PrefixSnoc(steps, j);
  }

  lemma OvertakenDeletes<R, B>(s: System<R, B>, step: Step<R, B>, s': System<R, B>, session: Session<R, B>)
    requires step.EndLookup? && IsStep(s, step, s', session)
    requires s.At(step.t).entry.Some?
    requires !Fresh(s.At(step.t).entry.value, step.now, session.config, session.hashing.version)
    ensures session.hashing.key(s.At(step.t).request) !in s'.cache.files
  {}

  lemma StillFresh<R, B>(steps: seq<Step<R, B>>, t: nat, key: string, j: nat, at: nat, session: Session<R, B>)
    requires ClockAdvances(steps, session) && j <= |steps| && RecordedMeanwhile(steps, t, key, j, at, session)
    ensures LastRecorded(steps[..j], key, session).Some?
    ensures at - LastRecorded(steps[..j], key, session).value.0 < session.config.completionTtl
  {
    var k :| 0 <= k < j && Recording(steps[k], key, session.hashing).Some?
             && at - Recording(steps[k], key, session.hashing).value.0 < session.config.completionTtl
             && NoBeginAfter(steps, t, k, j);
    RecordedLater(steps, key, k, j, session);
  }

  /** In every run, over any number of threads: the cache stands for the map of last recorded responses
      at every moment if and only if no lookup whose entry has expired by its end is overtaken by a
      record of the same key that is then still fresh. */
  lemma RefinesExactly<R, B>(states: seq<System<R, B>>, steps: seq<Step<R, B>>, session: Session<R, B>)
    requires IsRun(states, steps, session) && ClockAdvances(steps, session)
    ensures (forall i | 0 <= i <= |steps| :: RefinesAt(states, steps, i, session))
       <==> (forall j | 0 <= j < |steps| :: !Overtaken(states, steps, j, session))
  {
    if forall j | 0 <= j < |steps| :: !Overtaken(states, steps, j, session) {
      RefinesUpTo(states, steps, |steps|, session);
    } else {
      var j :| 0 <= j < |steps| && Overtaken(states, steps, j, session);
      OvertakenBreaks(states, steps, j, session);
    }
  }

  // ---- What lookups return ----

  /** What the map says under a key at a given time. */
  function MapLookup<R, B>(steps: seq<Step<R, B>>, key: string, now: nat, session: Session<R, B>): Option<Response<B>> {
    match LastRecorded(steps, key, session)
    case None => None
    case Some((t, r)) => if now - t < session.config.completionTtl then Some(r) else None
  }

  /** What the lookup that step `j` ends returns. */
  function Returned<R, B>(states: seq<System<R, B>>, steps: seq<Step<R, B>>, j: nat, session: Session<R, B>)
    : Option<Response<B>>
    requires j < |steps| && j < |states| && steps[j].EndLookup? && states[j].At(steps[j].t).Looking?
  {
    var pc := states[j].At(steps[j].t);
    FinishLookup(states[j].cache, pc.request, pc.entry, steps[j].now, steps[j].later, session.config, session.hashing).1
  }

  /** The lookup that step `j` ends began at step `i`. */
  ghost predicate BeganAt<R, B>(steps: seq<Step<R, B>>, i: nat, j: nat)
    requires i < j < |steps| && steps[j].EndLookup?
  {
    steps[i].BeginLookup? && steps[i].t == steps[j].t && NoBeginAfter(steps, steps[j].t, i, j)
  }

  /** While the map is refined, a lookup returns what the map said when it began, by the time that it reads
      after its file; deleting expired files is not observable. A torn lookup returns nothing. */
  lemma LookupIsMapLookup<R, B>(states: seq<System<R, B>>, steps: seq<Step<R, B>>, j: nat, session: Session<R, B>)
    returns (i: nat)
    requires IsRun(states, steps, session) && j < |steps| && steps[j].EndLookup?
    requires forall i | 0 <= i <= j :: RefinesAt(states, steps, i, session)
    requires forall i | 0 <= i < j && BeganAt(steps, i, j) :: Clock(steps[..i], session) <= steps[j].now
    ensures states[j].At(steps[j].t).Looking?
    ensures i < j && BeganAt(steps, i, j) && steps[i].request == states[j].At(steps[j].t).request
    ensures Returned(states, steps, j, session)
         == if steps[i].torn then None
            else MapLookup(steps[..i], session.hashing.key(steps[i].request), steps[j].now, session)
  {
    assert IsStep(states[j], steps[j], states[j + 1], session);
    i := LookupBegan(states, steps, j, steps[j].t, session);
    assert RefinesAt(states, steps, i, session);
    assert KeyMatches(states, steps, i, session.hashing.key(steps[i].request), session);
    assert Clock(steps[..i], session) <= steps[j].now;
  }

  // ---- One thread ----

  /** Each lookup ends before anything else happens, so that no read is torn. */
  ghost predicate Sequential<R, B>(steps: seq<Step<R, B>>) {
    forall j | 0 <= j < |steps| && steps[j].EndLookup? ::
      j > 0 && steps[j - 1].BeginLookup? && steps[j - 1].t == steps[j].t && !steps[j - 1].torn
  }

  /** Called from one thread, the cache always stands for the map. */
  lemma SequentialRefines<R, B>(states: seq<System<R, B>>, steps: seq<Step<R, B>>, session: Session<R, B>)
    requires IsRun(states, steps, session) && ClockAdvances(steps, session) && Sequential(steps)
    ensures forall i | 0 <= i <= |steps| :: RefinesAt(states, steps, i, session)
  {
    forall j | 0 <= j < |steps|
      ensures !Overtaken(states, steps, j, session)
    {
    }
    RefinesExactly(states, steps, session);
  }

  /** A lookup that ends right away began one step before. */
  lemma BeganJustNow<R, B>(steps: seq<Step<R, B>>, i: nat, j: nat)
    requires Sequential(steps) && i < j < |steps| && steps[j].EndLookup? && BeganAt(steps, i, j)
    ensures i == j - 1
  {
    var b := j - 1;
    assert steps[b].BeginLookup? && steps[b].t == steps[j].t;
  }

  lemma BeginChangesNoMap<R, B>(steps: seq<Step<R, B>>, i: nat, key: string, session: Session<R, B>)
    requires i < |steps| && steps[i].BeginLookup?
    ensures LastRecorded(steps[..i + 1], key, session) == LastRecorded(steps[..i], key, session)
    ensures Clock(steps[..i + 1], session) == Clock(steps[..i], session)
  {
    PrefixSnoc(steps, i);
  }

  /** And every lookup returns what the map says. */
  lemma SequentialLookup<R, B>(states: seq<System<R, B>>, steps: seq<Step<R, B>>, j: nat, session: Session<R, B>)
    requires IsRun(states, steps, session) && ClockAdvances(steps, session) && Sequential(steps)
    requires j < |steps| && steps[j].EndLookup? && Clock(steps[..j], session) <= steps[j].now
    ensures states[j].At(steps[j].t).Looking?
    ensures Returned(states, steps, j, session)
         == MapLookup(steps[..j], session.hashing.key(states[j].At(steps[j].t).request), steps[j].now, session)
  {
    SequentialRefines(states, steps, session);
    var b := j - 1;
    BeginChangesNoMap(steps, b, session.hashing.key(steps[b].request), session);
    forall i | 0 <= i < j && BeganAt(steps, i, j)
      ensures Clock(steps[..i], session) <= steps[j].now
    {
      BeganJustNow(steps, i, j);
    }
    var i := LookupIsMapLookup(states, steps, j, session);
    BeganJustNow(steps, i, j);
  }

  // ---- A run that loses a record ----

  /** A lookup that read an expired file before a new response was recorded deletes the new one. */
  lemma ConcurrentLookupLosesRecord<R, B>(request: R, first: Response<B>, second: Response<B>, config: Config,
                                          hashing: Hashing<R>)
    returns (states: seq<System<R, B>>, steps: seq<Step<R, B>>)
    requires config.completionTtl > 0
    ensures var session := Session(config, hashing, Cache(EMPTY_STATS, None, map[]), 0);
      IsRun(states, steps, session) && ClockAdvances(steps, session) && |steps| == 4
    ensures steps[2] == RecordUsage(request, second.usage, Some(second), config.completionTtl, config.completionTtl)
    ensures steps[3] == EndLookup(0, config.completionTtl, config.completionTtl)
    ensures ReadEntry(states[4].cache, request, hashing) == None
  {
    var ttl := config.completionTtl;
    steps := [RecordUsage(request, first.usage, Some(first), 0, 0), BeginLookup(0, request, false),
              RecordUsage(request, second.usage, Some(second), ttl, ttl), EndLookup(0, ttl, ttl)];
    var s0: System<R, B> := System(Cache(EMPTY_STATS, None, map[]), map[], 0, 0, 0);
    var s1 := Do(s0, steps[0], config, hashing);
    var s2 := Do(s1, steps[1], config, hashing);
    var s3 := Do(s2, steps[2], config, hashing);
    var s4 := Do(s3, steps[3], config, hashing);
    states := [s0, s1, s2, s3, s4];
    FourTimes(steps, Session(config, hashing, s0.cache, 0));
  }

  lemma FourTimes<R, B>(steps: seq<Step<R, B>>, session: Session<R, B>)
    requires |steps| == 4 && steps[0].RecordUsage? && steps[1].BeginLookup?
    requires steps[2].RecordUsage? && steps[3].EndLookup?
    requires session.openedAt <= steps[0].now <= steps[0].written <= steps[2].now <= steps[2].written <= steps[3].later
    requires steps[3].now <= steps[3].later && session.persisted.files == map[]
    ensures ClockAdvances(steps, session)
  {
    PrefixSnoc(steps, 0);
    PrefixSnoc(steps, 1);
    PrefixSnoc(steps, 2);
    assert Clock(steps[..1], session) == steps[0].written;
    assert Clock(steps[..2], session) == Clock(steps[..1], session);
    assert Clock(steps[..3], session) == steps[2].written;
  }
}
