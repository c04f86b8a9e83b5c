/** Pruning the session index by age and by number of entries. */
module SessionPrune {
  import opened Text
  import opened Sequences
  import opened Sorting

  datatype Meta = Meta(project: string, createdAt: string, updatedAt: string,
                       inputTokens: int, outputTokens: int, compactionCount: int, turnCount: int)

  /** An entry of the index, a dictionary that keeps insertion order. */
  datatype Session = Session(id: string, meta: Meta)

  predicate DistinctIds(index: seq<Session>) {
    forall i, j | 0 <= i < j < |index| :: index[i].id != index[j].id
  }

  /** ISO timestamps are compared as strings. */
  predicate NewerThan(s: Session, cutoff: string) {
    !StringLeq(s.meta.updatedAt, cutoff)
  }

  predicate UpdatedLeq(a: Session, b: Session) {
    StringLeq(a.meta.updatedAt, b.meta.updatedAt)
  }

  function Recent(index: seq<Session>, cutoff: string): seq<Session> {
    if index == [] then []
    else (if NewerThan(index[0], cutoff) then [index[0]] else []) + Recent(index[1..], cutoff)
  }

  function Without(index: seq<Session>, ids: set<string>): seq<Session> {
    if index == [] then []
    else (if index[0].id in ids then [] else [index[0]]) + Without(index[1..], ids)
  }

  function Ids(sessions: seq<Session>): set<string> {
    set i | 0 <= i < |sessions| :: sessions[i].id
  }

  /** How many sessions go for want of space. */
  function Excess(index: seq<Session>, cutoff: string, maxEntries: int): nat {
    var n := |Recent(index, cutoff)|;
    if n <= maxEntries then 0 else if maxEntries < 0 then n else n - maxEntries
  }

  /** The sessions that go for want of space: the least recently updated ones. */
  function Evicted(index: seq<Session>, cutoff: string, maxEntries: int): seq<Session> {
    var sorted := SortBy(Recent(index, cutoff), UpdatedLeq);
    SortByPermutes(Recent(index, cutoff), UpdatedLeq);
    sorted[..Excess(index, cutoff, maxEntries)]
  }

  function Kept(index: seq<Session>, cutoff: string, maxEntries: int): seq<Session> {
    Without(Recent(index, cutoff), Ids(Evicted(index, cutoff, maxEntries)))
  }

  // ---- What pruning means ----

  /** Updated strictly after the cutoff. */
  predicate UpdatedAfter(s: Session, cutoff: string) {
    StringLeq(cutoff, s.meta.updatedAt) && s.meta.updatedAt != cutoff
  }

  ghost function UpdatedSince(index: seq<Session>, cutoff: string): set<Session> {
    set s | s in index && UpdatedAfter(s, cutoff)
  }

  /** `kept` is what is left of `index`: only sessions updated after the cutoff; all of them if there is
      room, none if the limit is negative, and else as many as the limit says; none of those that go was
      updated after one that stays; and all in the order they were in. */
  ghost predicate IsPruned(index: seq<Session>, cutoff: string, maxEntries: int, kept: seq<Session>) {
    var n := |UpdatedSince(index, cutoff)|;
    && (forall s | s in kept :: s in UpdatedSince(index, cutoff))
    && |kept| == (if n <= maxEntries then n else if maxEntries < 0 then 0 else maxEntries)
    && (forall s, t | s in UpdatedSince(index, cutoff) && s !in kept && t in kept ::
          StringLeq(s.meta.updatedAt, t.meta.updatedAt))
    && kept == Restrict(index, kept)
  }

  // ---- The code ----

  class SessionStore {
    var index: seq<Session>
    var transcripts: set<string>

    constructor (index: seq<Session>, transcripts: set<string>)
      ensures this.index == index && this.transcripts == transcripts
    {
      this.index, this.transcripts := index, transcripts;
    }

    method Prune(cutoff: string, maxEntries: int) returns (removed: int)
      requires DistinctIds(index)
      modifies this
      ensures index == Kept(old(index), cutoff, maxEntries) && DistinctIds(index)
      ensures IsPruned(old(index), cutoff, maxEntries, index)
      ensures transcripts
           == old(transcripts) - set s | s in UpdatedSince(old(index), cutoff) && s !in index :: s.id
      ensures removed == |old(index)| - |index|
    {
      ghost var doomed, recent := Evicted(index, cutoff, maxEntries), Recent(index, cutoff);
      var before := |index|;
      index := Recent(index, cutoff);
      if |index| > maxEntries {
        SortByPermutes(recent, UpdatedLeq);
        var sorted := SortBy(index, UpdatedLeq);
        var excess := if maxEntries < 0 then |index| else |index| - maxEntries;
        assert sorted[..excess] == doomed;
        Remove(sorted[..excess]);
      } else {
        assert doomed == [];
        WithoutNone(recent);
      }
      assert index == Without(recent, Ids(doomed)) && transcripts == old(transcripts) - Ids(doomed);
      removed := before - |index|;
      assert DistinctIds(index) by {
        RecentDistinct(old(index), cutoff);
        WithoutDistinct(recent, Ids(doomed));
      }
      KeptIsPruned(old(index), cutoff, maxEntries);
      EvictedIds(old(index), cutoff, maxEntries);
    }

    /** The loop that deletes sessions and their transcripts. */
    method Remove(doomed: seq<Session>)
      modifies this
      ensures index == Without(old(index), Ids(doomed)) && transcripts == old(transcripts) - Ids(doomed)
    {
      WithoutNone(index);
      for i := 0 to |doomed|
        invariant index == Without(old(index), Ids(doomed[..i]))
        invariant transcripts == old(transcripts) - Ids(doomed[..i])
      {
        IdsSnoc(doomed, i);
        WithoutWithout(old(index), Ids(doomed[..i]), {doomed[i].id});
        index := Without(index, {doomed[i].id});
        transcripts := transcripts - {doomed[i].id};
      }
      assert doomed[..|doomed|] == doomed;
    }
  }

  lemma IdsSnoc(sessions: seq<Session>, i: nat)
    requires i < |sessions|
    ensures Ids(sessions[..i + 1]) == Ids(sessions[..i]) + {sessions[i].id}
  {
    assert sessions[..i + 1] == sessions[..i] + [sessions[i]];
    forall id | id in Ids(sessions[..i]) + {sessions[i].id}
      ensures id in Ids(sessions[..i + 1])
    {
      var k :| 0 <= k <= i && sessions[k].id == id;
      assert sessions[..i + 1][k].id == id;
    }
  }

  lemma {:induction false} WithoutNone(index: seq<Session>)
    ensures Without(index, Ids([])) == index
  {
    if index != [] {
      WithoutNone(index[1..]);
      assert index == [index[0]] + index[1..];
    }
  }

  lemma {:induction false} WithoutWithout(index: seq<Session>, a: set<string>, b: set<string>)
    ensures Without(Without(index, a), b) == Without(index, a + b)
  {
    if index != [] {
      var rest := Without(index[1..], a);
      WithoutWithout(index[1..], a, b);
      if index[0].id in a {
        assert [] + rest == rest && [] + Without(index[1..], a + b) == Without(index[1..], a + b);
      } else {
        assert ([index[0]] + rest)[1..] == rest;
      }
    }
  }

  lemma {:induction false} RecentKeeps(index: seq<Session>, cutoff: string)
    ensures forall s :: s in Recent(index, cutoff) <==> s in index && NewerThan(s, cutoff)
    ensures |Recent(index, cutoff)| <= |index|
  {
    if index != [] {
      RecentKeeps(index[1..], cutoff);
      assert index == [index[0]] + index[1..];
    }
  }

  lemma {:induction false} RecentDistinct(index: seq<Session>, cutoff: string)
    requires DistinctIds(index)
    ensures DistinctIds(Recent(index, cutoff))
  {
    if index != [] {
      var rest := Recent(index[1..], cutoff);
      RecentDistinct(index[1..], cutoff);
      RecentKeeps(index[1..], cutoff);
      forall j | 0 <= j < |rest|
        ensures rest[j].id != index[0].id
      {
        assert rest[j] in rest;
      }
    }
  }

  lemma {:induction false} WithoutKeeps(index: seq<Session>, ids: set<string>)
    ensures forall s :: s in Without(index, ids) <==> s in index && s.id !in ids
  {
    if index != [] {
      WithoutKeeps(index[1..], ids);
      assert index == [index[0]] + index[1..];
    }
  }

  lemma {:induction false} WithoutDistinct(index: seq<Session>, ids: set<string>)
    requires DistinctIds(index)
    ensures DistinctIds(Without(index, ids))
  {
    if index != [] {
      WithoutDistinct(index[1..], ids);
      WithoutKeeps(index[1..], ids);
    }
  }

  // ---- What pruning promises ----

  lemma MinusLater<T>(first: T, rest: seq<T>, fewer: seq<T>, s: T)
    requires s in rest && multiset(fewer) == multiset(rest) - multiset{s}
    ensures multiset([first] + fewer) == multiset([first] + rest) - multiset{s}
  {
    assert s in multiset(rest);
  }

  lemma {:induction false} WithoutOne(index: seq<Session>, s: Session)
    requires DistinctIds(index) && s in index
    ensures multiset(Without(index, {s.id})) == multiset(index) - multiset{s}
  {
    if index[0] == s {
      WithoutMissing(index[1..], s.id);
      MinusFirst(index);
    } else {
      StillThere(index, s);
      WithoutOne(index[1..], s);
      MinusLater(index[0], index[1..], Without(index[1..], {s.id}), s);
      assert index == [index[0]] + index[1..];
    }
  }

  /** A session behind the first one carries another id. */
  lemma StillThere(index: seq<Session>, s: Session)
    requires DistinctIds(index) && s in index && index[0] != s
    ensures DistinctIds(index[1..]) && s in index[1..] && index[0].id != s.id
  {
    var k :| 0 <= k < |index| && index[k] == s;
    assert index[1..][k - 1] == s;
  }

  lemma MinusFirst<T>(s: seq<T>)
    requires s != []
    ensures multiset(s[1..]) == multiset(s) - multiset{s[0]}
  {
    assert s == [s[0]] + s[1..];
  }

  lemma {:induction false} WithoutMissing(index: seq<Session>, id: string)
    requires forall i | 0 <= i < |index| :: index[i].id != id
    ensures Without(index, {id}) == index
  {
    if index != [] {
      WithoutMissing(index[1..], id);
      assert index == [index[0]] + index[1..];
    }
  }

  /** One more session of an arrangement is removed. */
  lemma WithoutNext(before: seq<Session>, sorted: seq<Session>, n: nat)
    requires n < |sorted| && DistinctIds(before) && multiset(before) == multiset(sorted[n..])
    ensures multiset(Without(before, {sorted[n].id})) == multiset(sorted[n + 1..])
  {
    DropOne(sorted, n);
    assert sorted[n] in multiset(before);
    WithoutOne(before, sorted[n]);
  }

  /** Removing the first `n` sessions of an arrangement leaves the others. */
  lemma {:induction false} WithoutFirst(index: seq<Session>, sorted: seq<Session>, n: nat)
    requires DistinctIds(index) && multiset(sorted) == multiset(index) && n <= |sorted|
    ensures multiset(Without(index, Ids(sorted[..n]))) == multiset(sorted[n..])
  {
    if n == 0 {
      WithoutNone(index);
      assert sorted[..0] == [] && sorted[0..] == sorted;
    } else {
      var gone := Ids(sorted[..n - 1]);
      WithoutFirst(index, sorted, n - 1);
      WithoutDistinct(index, gone);
      WithoutNext(Without(index, gone), sorted, n - 1);
      WithoutWithout(index, gone, {sorted[n - 1].id});
      IdsSnoc(sorted, n - 1);
    }
  }

  lemma DropOne<T>(s: seq<T>, n: nat)
    requires n < |s|
    ensures multiset(s[n..]) == multiset(s[n + 1..]) + multiset{s[n]}
  {
    assert s[n..] == [s[n]] + s[n + 1..];
  }

  lemma UpdatedOrdering()
    ensures Ordering(UpdatedLeq)
  {
    forall a: Session, b: Session
      ensures UpdatedLeq(a, b) || UpdatedLeq(b, a)
    {
      StringLeqTotal(a.meta.updatedAt, b.meta.updatedAt);
    }
    forall a: Session, b: Session, c: Session | UpdatedLeq(a, b) && UpdatedLeq(b, c)
      ensures UpdatedLeq(a, c)
    {
      StringLeqTransitive(a.meta.updatedAt, b.meta.updatedAt, c.meta.updatedAt);
    }
  }

  lemma KeptIsRest(index: seq<Session>, cutoff: string, maxEntries: int)
    requires DistinctIds(index)
    ensures var sorted := SortBy(Recent(index, cutoff), UpdatedLeq);
      && multiset(sorted) == multiset(Recent(index, cutoff))
      && Excess(index, cutoff, maxEntries) <= |sorted|
      && multiset(Kept(index, cutoff, maxEntries)) == multiset(sorted[Excess(index, cutoff, maxEntries)..])
  {
    RecentDistinct(index, cutoff);
    SortByPermutes(Recent(index, cutoff), UpdatedLeq);
    WithoutFirst(Recent(index, cutoff), SortBy(Recent(index, cutoff), UpdatedLeq), Excess(index, cutoff, maxEntries));
  }

  lemma SplitMultiset<T>(sorted: seq<T>, n: nat, kept: seq<T>)
    requires n <= |sorted| && multiset(kept) == multiset(sorted[n..])
    ensures multiset(kept) + multiset(sorted[..n]) == multiset(sorted) && |kept| == |sorted| - n
  {
    assert sorted == sorted[..n] + sorted[n..];
    assert |kept| == |multiset(kept)| == |multiset(sorted[n..])| == |sorted[n..]|;
  }

  lemma NewerExactly(s: Session, cutoff: string)
    ensures NewerThan(s, cutoff) <==> UpdatedAfter(s, cutoff)
  {
    StringLeqTotal(s.meta.updatedAt, cutoff);
    if StringLeq(s.meta.updatedAt, cutoff) && StringLeq(cutoff, s.meta.updatedAt) {
      StringLeqAntisymmetric(s.meta.updatedAt, cutoff);
    }
  }

  lemma {:induction false} DistinctCount(index: seq<Session>, all: set<Session>)
    requires DistinctIds(index) && forall s :: s in all <==> s in index
    ensures |all| == |index|
  {
    if index != [] {
      assert index[0] in index && index == [index[0]] + index[1..];
      assert forall s | s in index[1..] :: s.id != index[0].id;
      DistinctCount(index[1..], all - {index[0]});
    }
  }

  lemma RecentCount(index: seq<Session>, cutoff: string)
    requires DistinctIds(index)
    ensures forall s :: s in Recent(index, cutoff) <==> s in UpdatedSince(index, cutoff)
    ensures |Recent(index, cutoff)| == |UpdatedSince(index, cutoff)|
  {
    RecentKeeps(index, cutoff);
    forall s: Session
      ensures NewerThan(s, cutoff) <==> UpdatedAfter(s, cutoff)
    {
      NewerExactly(s, cutoff);
    }
    RecentDistinct(index, cutoff);
    DistinctCount(Recent(index, cutoff), UpdatedSince(index, cutoff));
  }

  /** The sessions updated after the cutoff are split into the kept and the evicted ones. All are kept if
      there is room, none if the limit is negative, and else exactly as many as the limit says. */
  lemma PruneKeepsCount(index: seq<Session>, cutoff: string, maxEntries: int)
    requires DistinctIds(index)
    ensures var kept, evicted := Kept(index, cutoff, maxEntries), Evicted(index, cutoff, maxEntries);
      var n := |UpdatedSince(index, cutoff)|;
      && multiset(kept) + multiset(evicted) == multiset(Recent(index, cutoff))
      && |kept| == (if n <= maxEntries then n else if maxEntries < 0 then 0 else maxEntries)
      && (forall s :: s in kept ==> NewerThan(s, cutoff))
  {
    var sorted := SortBy(Recent(index, cutoff), UpdatedLeq);
    KeptIsRest(index, cutoff, maxEntries);
    SortByPermutes(Recent(index, cutoff), UpdatedLeq);
    SplitMultiset(sorted, Excess(index, cutoff, maxEntries), Kept(index, cutoff, maxEntries));
    assert |sorted| == |multiset(sorted)| == |Recent(index, cutoff)|;
    RecentCount(index, cutoff);
    RecentKeeps(index, cutoff);
    WithoutKeeps(Recent(index, cutoff), Ids(Evicted(index, cutoff, maxEntries)));
  }

  lemma {:induction false} RestrictedIndex(index: seq<Session>, cutoff: string, ids: set<string>, those: seq<Session>)
    requires forall s | s in index :: s in those <==> NewerThan(s, cutoff) && s.id !in ids
    ensures Without(Recent(index, cutoff), ids) == Restrict(index, those)
  {
    if index != [] {
      assert index[0] in index && index == [index[0]] + index[1..];
      RestrictedIndex(index[1..], cutoff, ids, those);
      var rest := Recent(index[1..], cutoff);
      if NewerThan(index[0], cutoff) {
        assert ([index[0]] + rest)[1..] == rest;
      } else {
        assert [] + rest == rest;
      }
    }
  }

  /** The kept sessions are in the order they were in. */
  lemma KeptInOrder(index: seq<Session>, cutoff: string, maxEntries: int)
    ensures Kept(index, cutoff, maxEntries) == Restrict(index, Kept(index, cutoff, maxEntries))
  {
    var ids := Ids(Evicted(index, cutoff, maxEntries));
    RecentKeeps(index, cutoff);
    WithoutKeeps(Recent(index, cutoff), ids);
    RestrictedIndex(index, cutoff, ids, Kept(index, cutoff, maxEntries));
  }

  lemma KeptIsPruned(index: seq<Session>, cutoff: string, maxEntries: int)
    requires DistinctIds(index)
    ensures IsPruned(index, cutoff, maxEntries, Kept(index, cutoff, maxEntries))
  {
    var kept := Kept(index, cutoff, maxEntries);
    PruneKeepsCount(index, cutoff, maxEntries);
    RecentCount(index, cutoff);
    WithoutKeeps(Recent(index, cutoff), Ids(Evicted(index, cutoff, maxEntries)));
    KeptInOrder(index, cutoff, maxEntries);
    forall s, t | s in UpdatedSince(index, cutoff) && s !in kept && t in kept
      ensures StringLeq(s.meta.updatedAt, t.meta.updatedAt)
    {
      GoneIsEvicted(index, cutoff, maxEntries, s);
      PruneKeepsNewest(index, cutoff, maxEntries, s, t);
    }
  }

  lemma GoneIsEvicted(index: seq<Session>, cutoff: string, maxEntries: int, s: Session)
    requires DistinctIds(index) && s in UpdatedSince(index, cutoff)
    ensures s in Evicted(index, cutoff, maxEntries) <==> s !in Kept(index, cutoff, maxEntries)
  {
    RecentCount(index, cutoff);
    PruneKeepsCount(index, cutoff, maxEntries);
    var recent := Recent(index, cutoff);
    var kept, evicted := Kept(index, cutoff, maxEntries), Evicted(index, cutoff, maxEntries);
    InEither(recent, kept, evicted, s);
    WithoutKeeps(recent, Ids(evicted));
    InIds(evicted, s);
  }

  lemma InEither<T>(all: seq<T>, a: seq<T>, b: seq<T>, x: T)
    requires multiset(a) + multiset(b) == multiset(all)
    ensures x in all <==> x in a || x in b
  {
    assert x in multiset(all) <==> x in multiset(a) || x in multiset(b);
  }

  lemma InIds(sessions: seq<Session>, s: Session)
    ensures s in sessions ==> s.id in Ids(sessions)
  {
    if s in sessions {
      var i :| 0 <= i < |sessions| && sessions[i] == s;
    }
  }

  lemma EvictedIds(index: seq<Session>, cutoff: string, maxEntries: int)
    requires DistinctIds(index)
    ensures Ids(Evicted(index, cutoff, maxEntries))
         == set s | s in UpdatedSince(index, cutoff) && s !in Kept(index, cutoff, maxEntries) :: s.id
  {
    var evicted, kept := Evicted(index, cutoff, maxEntries), Kept(index, cutoff, maxEntries);
    var gone := set s | s in UpdatedSince(index, cutoff) && s !in kept;
    RecentCount(index, cutoff);
    PruneKeepsCount(index, cutoff, maxEntries);
    forall s: Session
      ensures s in evicted <==> s in gone
    {
      InEither(Recent(index, cutoff), kept, evicted, s);
      if s in UpdatedSince(index, cutoff) {
        GoneIsEvicted(index, cutoff, maxEntries, s);
      }
    }
    IdsOfSet(evicted, gone);
  }

  lemma IdsOfSet(sessions: seq<Session>, all: set<Session>)
    requires forall s :: s in sessions <==> s in all
    ensures Ids(sessions) == set s | s in all :: s.id
  {
    forall id | id in Ids(sessions)
      ensures id in set s | s in all :: s.id
    {
      var i :| 0 <= i < |sessions| && sessions[i].id == id;
      assert sessions[i] in all;
    }
    forall s | s in all
      ensures s.id in Ids(sessions)
    {
      InIds(sessions, s);
    }
  }

  /** Among sessions updated at the same time the first ones of the index go first. */
  lemma PruneTies(index: seq<Session>, cutoff: string, maxEntries: int, time: string)
    ensures var same := (s: Session) => s.meta.updatedAt == time;
      Filter(Evicted(index, cutoff, maxEntries), same) <= Filter(Recent(index, cutoff), same)
  {
    var same := (s: Session) => s.meta.updatedAt == time;
    var sorted, n := SortBy(Recent(index, cutoff), UpdatedLeq), Excess(index, cutoff, maxEntries);
    StringLeqTotal(time, time);
    SortByStable(Recent(index, cutoff), UpdatedLeq, same);
    SortByPermutes(Recent(index, cutoff), UpdatedLeq);
    assert sorted == sorted[..n] + sorted[n..];
    FilterAppend(sorted[..n], sorted[n..], same);
  }

  /** No session evicted for space was updated after one that is kept. */
  lemma PruneKeepsNewest(index: seq<Session>, cutoff: string, maxEntries: int, s: Session, t: Session)
    requires DistinctIds(index)
    requires s in Evicted(index, cutoff, maxEntries) && t in Kept(index, cutoff, maxEntries)
    ensures UpdatedLeq(s, t)
  {
    var sorted, n := SortBy(Recent(index, cutoff), UpdatedLeq), Excess(index, cutoff, maxEntries);
    KeptIsRest(index, cutoff, maxEntries);
    UpdatedOrdering();
    SortBySorted(Recent(index, cutoff), UpdatedLeq);
    assert t in multiset(Kept(index, cutoff, maxEntries));
    assert t in sorted[n..];
    var j :| n <= j < |sorted| && sorted[j] == t;
    var i :| 0 <= i < n && sorted[i] == s;
  }

  /** A session's transcript is unlinked if and only if the session is removed although it is newer
      than the cutoff: those that are removed for their age leave their transcripts behind. */
  lemma PruneKeepsTranscripts(index: seq<Session>, cutoff: string, maxEntries: int, s: Session)
    requires DistinctIds(index) && s in index
    ensures s.id in Ids(Evicted(index, cutoff, maxEntries))
       <==> s !in Kept(index, cutoff, maxEntries) && NewerThan(s, cutoff)
  {
    var recent := Recent(index, cutoff);
    var evicted := Evicted(index, cutoff, maxEntries);
    RecentKeeps(index, cutoff);
    WithoutKeeps(recent, Ids(evicted));
    if !NewerThan(s, cutoff) {
      forall i | 0 <= i < |evicted|
        ensures evicted[i].id != s.id
      {
        PruneKeepsCount(index, cutoff, maxEntries);
        assert evicted[i] in multiset(evicted);
        assert evicted[i] in multiset(recent);
      }
    }
  }

  /** So a session that is only too old disappears from the index and leaves its transcript behind. */
  lemma StaleTranscriptStays(s: Session, cutoff: string, maxEntries: int)
    requires !NewerThan(s, cutoff)
    ensures s !in Kept([s], cutoff, maxEntries) && s.id !in Ids(Evicted([s], cutoff, maxEntries))
  {
    RecentKeeps([s], cutoff);
    WithoutKeeps(Recent([s], cutoff), Ids(Evicted([s], cutoff, maxEntries)));
    PruneKeepsTranscripts([s], cutoff, maxEntries, s);
  }

  /** Pruning again with the same cutoff removes nothing. */
  lemma PruneTwice(index: seq<Session>, cutoff: string, maxEntries: int)
    requires DistinctIds(index)
    ensures var once := Kept(index, cutoff, maxEntries);
      Kept(once, cutoff, maxEntries) == once && Evicted(once, cutoff, maxEntries) == []
  {
    var once := Kept(index, cutoff, maxEntries);
    PruneKeepsCount(index, cutoff, maxEntries);
    AllRecent(once, cutoff);
    WithoutNone(once);
  }

  lemma {:induction false} AllRecent(index: seq<Session>, cutoff: string)
    requires forall s :: s in index ==> NewerThan(s, cutoff)
    ensures Recent(index, cutoff) == index
  {
    if index != [] {
      AllRecent(index[1..], cutoff);
      assert index[0] in index;
      assert index == [index[0]] + index[1..];
    }
  }
}
