/** Ranking of slash-command suggestions for a mistyped command. */
module Suggestions {
  import opened Text
  import opened Sorting
  import EditDistance

  datatype Spec = Spec(name: string, aliases: seq<string>)

  datatype Score = Score(rank: nat, distance: nat)

  datatype Key = Key(rank: nat, distance: nat, length: nat, name: string)

  predicate ScoreLeq(a: Score, b: Score) {
    a.rank < b.rank || (a.rank == b.rank && a.distance <= b.distance)
  }

  /** The derived order on the tuples that are sorted. */
  predicate KeyLeq(a: Key, b: Key) {
    if a.rank != b.rank then a.rank < b.rank
    else if a.distance != b.distance then a.distance < b.distance
    else if a.length != b.length then a.length < b.length
    else StringLeq(a.name, b.name)
  }

  function PrefixRank(candidate: string, query: string): nat {
    if StartsWith(candidate, query) || StartsWith(query, candidate) then 0
    else if Contains(candidate, query) || Contains(query, candidate) then 1
    else 2
  }

  ghost function ScoreOf(candidate: string, query: string): Score {
    Score(PrefixRank(candidate, query), EditDistance.Distance(candidate, query))
  }

  function Names(spec: Spec): (names: seq<string>)
    ensures names != []
  {
    [spec.name] + spec.aliases
  }

  /** The least score among the names, compared rank first. */
  ghost function BestScore(names: seq<string>, query: string): Score
    requires names != []
  {
    var first := ScoreOf(ToAsciiLower(names[0]), query);
    if |names| == 1 then first
    else
      var rest := BestScore(names[1..], query);
      if ScoreLeq(first, rest) then first else rest
  }

  ghost function KeyOf(spec: Spec, query: string): Key {
    var best := BestScore(Names(spec), query);
    Key(best.rank, best.distance, ByteLength(spec.name), spec.name)
  }

  /** `filter_map`: the best score alone decides whether a command is kept. */
  ghost function Ranked(specs: seq<Spec>, query: string): seq<Key> {
    if specs == [] then []
    else
      var key := KeyOf(specs[0], query);
      (if key.rank <= 1 || key.distance <= 2 then [key] else []) + Ranked(specs[1..], query)
  }

  function Query(input: string): string {
    ToAsciiLower(TrimStartMatches(Trim(input), '/'))
  }

  function SlashNames(keys: seq<Key>): (names: seq<string>)
    ensures |names| == |keys|
    ensures forall i | 0 <= i < |keys| :: names[i] == "/" + keys[i].name
  {
    seq(|keys|, i requires 0 <= i < |keys| => "/" + keys[i].name)
  }

  ghost function Suggest(specs: seq<Spec>, input: string, limit: nat): seq<string> {
    var query := Query(input);
    if query == "" || limit == 0 then []
    else
      var suggestions := SlashNames(SortBy(Ranked(specs, query), KeyLeq));
      if limit < |suggestions| then suggestions[..limit] else suggestions
  }

  // ---- What a suggestion is ----

  /** Containment either way, or at most two edits apart. */
  ghost predicate Related(candidate: string, query: string) {
    || Contains(candidate, query)
    || Contains(query, candidate)
    || exists n: nat | n <= 2 :: EditDistance.IsLeastEditCount(candidate, query, n)
  }

  /** The name of a command or one of its aliases, in small letters. */
  predicate IsNameOf(candidate: string, spec: Spec) {
    || candidate == ToAsciiLower(spec.name)
    || exists i | 0 <= i < |spec.aliases| :: candidate == ToAsciiLower(spec.aliases[i])
  }

  ghost predicate Qualifies(spec: Spec, query: string) {
    exists candidate :: IsNameOf(candidate, spec) && Related(candidate, query)
  }

  ghost function Qualifying(specs: seq<Spec>, query: string): seq<Spec> {
    if specs == [] then []
    else (if Qualifies(specs[0], query) then [specs[0]] else []) + Qualifying(specs[1..], query)
  }

  ghost function Keys(specs: seq<Spec>, query: string): (keys: seq<Key>)
    ensures |keys| == |specs|
    ensures forall i | 0 <= i < |keys| :: keys[i] == KeyOf(specs[i], query)
  {
    seq(|specs|, i requires 0 <= i < |specs| => KeyOf(specs[i], query))
  }

  /** The keys of exactly the qualifying commands, in rank, distance, length, name order. */
  ghost predicate IsRanking(ranking: seq<Key>, specs: seq<Spec>, query: string) {
    && Sorted(ranking, KeyLeq)
    && multiset(ranking) == multiset(Keys(Qualifying(specs, query), query))
  }

  // ---- Proofs ----

  lemma KeyLeqOrdering()
    ensures Ordering(KeyLeq)
    ensures forall a, b :: KeyLeq(a, b) && KeyLeq(b, a) ==> a == b
  {
    forall a: Key, b: Key
      ensures KeyLeq(a, b) || KeyLeq(b, a)
      ensures KeyLeq(a, b) && KeyLeq(b, a) ==> a == b
    {
      StringLeqTotal(a.name, b.name);
      if KeyLeq(a, b) && KeyLeq(b, a) {
        StringLeqAntisymmetric(a.name, b.name);
      }
    }
    forall a: Key, b: Key, c: Key | KeyLeq(a, b) && KeyLeq(b, c)
      ensures KeyLeq(a, c)
    {
      if StringLeq(a.name, b.name) && StringLeq(b.name, c.name) {
        StringLeqTransitive(a.name, b.name, c.name);
      }
    }
  }

  lemma WithinTwoEdits(s: string, t: string)
    ensures (exists n: nat | n <= 2 :: EditDistance.IsLeastEditCount(s, t, n)) <==> EditDistance.Distance(s, t) <= 2
  {
    EditDistance.DistanceIsLeast(s, t);
    forall n: nat | EditDistance.IsLeastEditCount(s, t, n)
      ensures n == EditDistance.Distance(s, t)
    {
    }
  }

  lemma PrefixIsPart(s: string, part: string)
    requires StartsWith(s, part)
    ensures Contains(s, part)
  {
    assert s[0..] == s;
  }

  lemma RelatedByScore(candidate: string, query: string)
    ensures Related(candidate, query)
       <==> (ScoreOf(candidate, query).rank <= 1 || ScoreOf(candidate, query).distance <= 2)
  {
    WithinTwoEdits(candidate, query);
    if StartsWith(candidate, query) {
      PrefixIsPart(candidate, query);
    } else if StartsWith(query, candidate) {
      PrefixIsPart(query, candidate);
    }
  }

  lemma {:induction false} BestScoreIsLeast(names: seq<string>, query: string)
    requires names != []
    ensures exists name | name in names :: ScoreOf(ToAsciiLower(name), query) == BestScore(names, query)
    ensures forall name | name in names :: ScoreLeq(BestScore(names, query), ScoreOf(ToAsciiLower(name), query))
  {
    assert names[0] in names;
    if |names| > 1 {
      BestScoreIsLeast(names[1..], query);
      assert names == [names[0]] + names[1..];
    }
  }

  /** Filtering on the lexicographic minimum loses no command: the minimum passes the filter
      exactly when some name or alias would have passed it. */
  lemma BestScoreDecides(spec: Spec, query: string)
    ensures Qualifies(spec, query) <==> (KeyOf(spec, query).rank <= 1 || KeyOf(spec, query).distance <= 2)
  {
    BestIsLeast(spec, query);
    forall candidate
      ensures Related(candidate, query)
         <==> (ScoreOf(candidate, query).rank <= 1 || ScoreOf(candidate, query).distance <= 2)
    {
      RelatedByScore(candidate, query);
    }
  }

  /** The best score is that of some name, and no name has a better one. */
  lemma BestIsLeast(spec: Spec, query: string)
    ensures exists candidate :: IsNameOf(candidate, spec) && ScoreOf(candidate, query) == BestScore(Names(spec), query)
    ensures forall candidate | IsNameOf(candidate, spec) ::
      ScoreLeq(BestScore(Names(spec), query), ScoreOf(candidate, query))
  {
    var names := Names(spec);
    BestScoreIsLeast(names, query);
    var best :| best in names && ScoreOf(ToAsciiLower(best), query) == BestScore(names, query);
    NameIsOne(spec, best);
    forall candidate | IsNameOf(candidate, spec)
      ensures ScoreLeq(BestScore(names, query), ScoreOf(candidate, query))
    {
      if candidate == ToAsciiLower(spec.name) {
        assert names[0] == spec.name && names[0] in names;
      } else {
        var i :| 0 <= i < |spec.aliases| && candidate == ToAsciiLower(spec.aliases[i]);
        assert names[i + 1] == spec.aliases[i] && names[i + 1] in names;
      }
    }
  }

  lemma NameIsOne(spec: Spec, name: string)
    requires name in Names(spec)
    ensures IsNameOf(ToAsciiLower(name), spec)
  {
    var i :| 0 <= i < |Names(spec)| && Names(spec)[i] == name;
    assert i > 0 ==> spec.aliases[i - 1] == name;
  }

  // ---- What the order means ----

  /** One begins with the other. */
  predicate BeginsEither(candidate: string, query: string) {
    query <= candidate || candidate <= query
  }

  predicate ContainsEither(candidate: string, query: string) {
    Contains(candidate, query) || Contains(query, candidate)
  }

  /** Commands of which a name begins with the query, or the query with a name, come first; then those of
      which a name contains the query or the other way round; then the rest. Within its class a command is
      as far away as the nearest of its names that belong to the class; its own name counts in bytes. */
  ghost predicate KeyMeans(key: Key, spec: Spec, query: string) {
    && key.name == spec.name && key.length == |Encode(spec.name)|
    && (key.rank == 0 <==> exists c :: IsNameOf(c, spec) && BeginsEither(c, query))
    && (key.rank <= 1 <==> exists c :: IsNameOf(c, spec) && ContainsEither(c, query))
    && (exists c ::
          IsNameOf(c, spec) && InClass(c, query, key.rank) && EditDistance.IsLeastEditCount(c, query, key.distance))
    && (forall c | IsNameOf(c, spec) && InClass(c, query, key.rank) ::
          key.distance <= EditDistance.Distance(c, query))
  }

  predicate InClass(candidate: string, query: string, rank: nat) {
    match rank
    case 0 => BeginsEither(candidate, query)
    case 1 => ContainsEither(candidate, query) && !BeginsEither(candidate, query)
    case _ => !ContainsEither(candidate, query)
  }

  lemma RankIsClass(candidate: string, query: string)
    ensures PrefixRank(candidate, query) <= 2 && InClass(candidate, query, PrefixRank(candidate, query))
    ensures forall rank: nat | rank <= 2 && InClass(candidate, query, rank) :: rank == PrefixRank(candidate, query)
    ensures BeginsEither(candidate, query) ==> ContainsEither(candidate, query)
  {
    if query <= candidate {
      PrefixIsPart(candidate, query);
    } else if candidate <= query {
      PrefixIsPart(query, candidate);
    }
  }

  lemma KeyExactly(spec: Spec, query: string)
    ensures KeyMeans(KeyOf(spec, query), spec, query)
  {
    var key := KeyOf(spec, query);
    BestIsLeast(spec, query);
    var best :| IsNameOf(best, spec) && ScoreOf(best, query) == BestScore(Names(spec), query);
    RankIsClass(best, query);
    EditDistance.DistanceIsLeast(best, query);
    forall c | IsNameOf(c, spec)
      ensures key.rank <= PrefixRank(c, query) && InClass(c, query, PrefixRank(c, query))
      ensures InClass(c, query, key.rank) ==> PrefixRank(c, query) == key.rank
      ensures InClass(c, query, key.rank) ==> key.distance <= EditDistance.Distance(c, query)
      ensures BeginsEither(c, query) ==> PrefixRank(c, query) == 0
      ensures ContainsEither(c, query) ==> PrefixRank(c, query) <= 1
    {
      RankIsClass(c, query);
      assert ScoreLeq(BestScore(Names(spec), query), ScoreOf(c, query));
    }
  }

  /** Keys compare by rank, then distance, then length, then name. */
  lemma KeyLeqExactly(a: Key, b: Key)
    ensures KeyLeq(a, b)
       <==> || a.rank < b.rank
            || (a.rank == b.rank && a.distance < b.distance)
            || (a.rank == b.rank && a.distance == b.distance && a.length < b.length)
            || (a.rank == b.rank && a.distance == b.distance && a.length == b.length && StringLeq(a.name, b.name))
  {}

  // ---- What the query is ----

  /** Blanks around the input and slashes before it do not count, nor do capital letters. */
  lemma QueryOf(before: string, slashes: string, word: string, after: string)
    requires Blank(before) && Blank(after) && Bare(word) && word[0] != '/'
    requires forall i | 0 <= i < |slashes| :: slashes[i] == '/'
    ensures Query(before + (slashes + word) + after) == ToAsciiLower(word)
  {
    assert (slashes + word)[|slashes + word| - 1] == word[|word| - 1];
    TrimOf(before, slashes + word, after);
    TrimStartMatchesOf(slashes, word, '/');
  }

  /** Without a query there is nothing to suggest. */
  lemma NothingToSuggest(specs: seq<Spec>, input: string, limit: nat)
    requires Query(input) == "" || limit == 0
    ensures Suggest(specs, input, limit) == []
  {}

  lemma KeysCons(spec: Spec, specs: seq<Spec>, query: string)
    ensures Keys([spec] + specs, query) == [KeyOf(spec, query)] + Keys(specs, query)
  {}

  lemma {:induction false} RankedAreKeys(specs: seq<Spec>, query: string)
    ensures Ranked(specs, query) == Keys(Qualifying(specs, query), query)
  {
    if specs != [] {
      BestScoreDecides(specs[0], query);
      RankedAreKeys(specs[1..], query);
      var rest := Qualifying(specs[1..], query);
      if Qualifies(specs[0], query) {
        KeysCons(specs[0], rest, query);
      } else {
        assert [] + rest == rest && [] + Ranked(specs[1..], query) == Ranked(specs[1..], query);
      }
    }
  }

  /** There is exactly one ranking, whichever way the tuples are sorted. */
  lemma RankingUnique(r1: seq<Key>, r2: seq<Key>, specs: seq<Spec>, query: string)
    requires IsRanking(r1, specs, query) && IsRanking(r2, specs, query)
    ensures r1 == r2
  {
    KeyLeqOrdering();
    SortedUnique(r1, r2, KeyLeq);
  }

  /** The suggestions are the names of the first `limit` qualifying commands of the ranking,
      and every command left out ranks after every command suggested. */
  lemma SuggestionsAreTheBest(specs: seq<Spec>, input: string, limit: nat) returns (ranking: seq<Key>)
    requires Query(input) != ""
    ensures IsRanking(ranking, specs, Query(input))
    ensures var shown := if limit < |ranking| then limit else |ranking|;
      && Suggest(specs, input, limit) == SlashNames(ranking)[..shown]
      && forall i, j | 0 <= i < shown <= j < |ranking| :: KeyLeq(ranking[i], ranking[j])
    ensures |ranking| == |Qualifying(specs, Query(input))|
  {
    var query := Query(input);
    ranking := SortBy(Ranked(specs, query), KeyLeq);
    KeyLeqOrdering();
    SortBySorted(Ranked(specs, query), KeyLeq);
    SortByPermutes(Ranked(specs, query), KeyLeq);
    RankedAreKeys(specs, query);
    assert SlashNames(ranking)[..|ranking|] == SlashNames(ranking);
  }

  // ---- The code ----

  method ComputeBestScore(names: seq<string>, query: string) returns (best: Score)
    requires names != []
    ensures best == BestScore(names, query)
  {
    var last := ToAsciiLower(names[|names| - 1]);
    var distance := EditDistance.LevenshteinDistance(last, query);
    best := Score(PrefixRank(last, query), distance);
    for i := |names| - 1 downto 0
      invariant best == BestScore(names[i..], query)
    {
      var candidate := ToAsciiLower(names[i]);
      distance := EditDistance.LevenshteinDistance(candidate, query);
      var score := Score(PrefixRank(candidate, query), distance);
      assert names[i..][1..] == names[i + 1..];
      if ScoreLeq(score, best) {
        best := score;
      }
    }
    assert names[0..] == names;
  }

  method CollectRanked(specs: seq<Spec>, query: string) returns (ranked: seq<Key>)
    ensures ranked == Ranked(specs, query)
  {
    ranked := [];
    for i := |specs| downto 0
      invariant ranked == Ranked(specs[i..], query)
    {
      var best := ComputeBestScore(Names(specs[i]), query);
      assert specs[i..][1..] == specs[i + 1..];
      if best.rank <= 1 || best.distance <= 2 {
        ranked := [Key(best.rank, best.distance, ByteLength(specs[i].name), specs[i].name)] + ranked;
      }
    }
    assert specs[0..] == specs;
  }

  /** `suggest_slash_commands`. */
  method SuggestSlashCommands(specs: seq<Spec>, input: string, limit: nat) returns (suggestions: seq<string>)
    ensures suggestions == Suggest(specs, input, limit)
  {
    var query := Query(input);
    if query == "" || limit == 0 {
      return [];
    }
    var ranked := CollectRanked(specs, query);
    var names := SlashNames(SortBy(ranked, KeyLeq));
    suggestions := if limit < |names| then names[..limit] else names;
  }
}
