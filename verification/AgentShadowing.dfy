/** Loading agent definitions from an ordered list of roots, where an earlier root shadows a
    later one by case-folded name. */
module AgentShadowing {
  import opened Wrappers
  import opened Text
  import opened Sorting

  datatype Source = ProjectCodex | ProjectClaude | UserCodexHome | UserCodex | UserClaude

  datatype Agent = Agent(
    name: string,
    description: Option<string>,
    model: Option<string>,
    reasoningEffort: Option<string>,
    source: Source,
    shadowedBy: Option<Source>)

  /** What the file system answers for one directory entry; `E` is its error type. */
  datatype Entry<E> =
    | Unreadable(error: E)
    | File(isToml: bool, contents: Result<string, E>, fallbackName: string)

  datatype Root<E> = Root(source: Source, listing: Result<seq<Entry<E>>, E>)

  // ---- One definition file ----

  function TomlValue(line: string, key: string): Option<string> {
    var trimmed, prefix := Trim(line), key + " =";
    if StartsWith(trimmed, "#") || !StartsWith(trimmed, prefix) then None
    else
      var value := Trim(trimmed[|prefix|..]);
      if |value| > 2 && value[0] == '"' && value[|value| - 1] == '"' then Some(value[1..|value| - 1]) else None
  }

  function FirstTomlValue(lines: seq<string>, key: string): Option<string> {
    if lines == [] then None
    else if TomlValue(lines[0], key).Some? then TomlValue(lines[0], key)
    else FirstTomlValue(lines[1..], key)
  }

  function ParseTomlString(contents: string, key: string): Option<string> {
    FirstTomlValue(Lines(contents), key)
  }

  function ParseAgent(contents: string, fallbackName: string, source: Source): Agent {
    var name := ParseTomlString(contents, "name");
    Agent(if name.Some? then name.value else fallbackName,
          ParseTomlString(contents, "description"),
          ParseTomlString(contents, "model"),
          ParseTomlString(contents, "model_reasoning_effort"),
          source, None)
  }

  // ---- What loading collects, shadowing aside ----

  function After<E>(first: seq<Agent>, rest: Result<seq<Agent>, E>): (r: Result<seq<Agent>, E>)
    ensures first == [] ==> r == rest
    ensures rest == Success([]) ==> r == Success(first)
  {
    if rest.Success? then
      assert first + [] == first && (first == [] ==> first + rest.value == rest.value);
      Success(first + rest.value)
    else rest
  }

  lemma AfterAfter<E>(first: seq<Agent>, second: seq<Agent>, rest: Result<seq<Agent>, E>)
    ensures After(first, After(second, rest)) == After(first + second, rest)
  {
    if rest.Success? {
      assert first + (second + rest.value) == (first + second) + rest.value;
    }
  }

  /** The agents of one directory in listing order, or the first error met. */
  function ReadEntries<E>(entries: seq<Entry<E>>, source: Source): Result<seq<Agent>, E> {
    if entries == [] then Success([])
    else
      match entries[0]
      case Unreadable(e) => Failure(e)
      case File(false, _, _) => ReadEntries(entries[1..], source)
      case File(true, Failure(e), _) => Failure(e)
      case File(true, Success(text), fallback) =>
        After([ParseAgent(text, fallback, source)], ReadEntries(entries[1..], source))
  }

  predicate NameLeq(a: Agent, b: Agent) {
    StringLeq(a.name, b.name)
  }

  function ReadRoot<E>(root: Root<E>): Result<seq<Agent>, E> {
    match root.listing
    case Failure(e) => Failure(e)
    case Success(entries) =>
      match ReadEntries(entries, root.source)
      case Failure(e) => Failure(e)
      case Success(agents) => Success(SortBy(agents, NameLeq))
  }

  /** All roots in order, each sorted by name. */
  function ReadRoots<E>(roots: seq<Root<E>>): Result<seq<Agent>, E> {
    if roots == [] then Success([])
    else
      match ReadRoot(roots[0])
      case Failure(e) => Failure(e)
      case Success(first) => After(first, ReadRoots(roots[1..]))
  }

  // ---- What shadowing means ----

  function FoldedName(agent: Agent): string {
    ToAsciiLower(agent.name)
  }

  /** The source of the first agent with a folded name. */
  ghost function FirstSource(agents: seq<Agent>, key: string): Option<Source> {
    if agents == [] then None
    else if FoldedName(agents[0]) == key then Some(agents[0].source)
    else FirstSource(agents[1..], key)
  }

  /** Each agent is marked with the source of the first agent before it of the same name, if any. */
  ghost predicate Shadowing(agents: seq<Agent>) {
    forall j | 0 <= j < |agents| :: agents[j].shadowedBy == FirstSource(agents[..j], FoldedName(agents[j]))
  }

  /** `a` and `b` differ in their shadowing marks at most. */
  ghost predicate SameButMarks(a: seq<Agent>, b: seq<Agent>) {
    |a| == |b| && forall i | 0 <= i < |a| :: a[i].(shadowedBy := None) == b[i].(shadowedBy := None)
  }

  function Lookup(active: map<string, Source>, key: string): Option<Source> {
    if key in active then Some(active[key]) else None
  }

  ghost predicate Tracks(active: map<string, Source>, agents: seq<Agent>) {
    forall key :: Lookup(active, key) == FirstSource(agents, key)
  }

  lemma {:induction false} FirstSourceSnoc(agents: seq<Agent>, agent: Agent, key: string)
    ensures FirstSource(agents + [agent], key)
         == if FirstSource(agents, key).Some? then FirstSource(agents, key)
            else if FoldedName(agent) == key then Some(agent.source) else None
  {
    if agents != [] {
      assert (agents + [agent])[1..] == agents[1..] + [agent];
      FirstSourceSnoc(agents[1..], agent, key);
    }
  }

  lemma AppendShadowing(agents: seq<Agent>, agent: Agent)
    requires Shadowing(agents) && agent.shadowedBy == FirstSource(agents, FoldedName(agent))
    ensures Shadowing(agents + [agent])
  {
    var longer := agents + [agent];
    forall j | 0 <= j < |longer|
      ensures longer[j].shadowedBy == FirstSource(longer[..j], FoldedName(longer[j]))
    {
      assert longer[..j] == agents[..j];
      assert agents[..|agents|] == agents;
    }
  }

  lemma AppendTracks(active: map<string, Source>, agents: seq<Agent>, agent: Agent)
    requires Tracks(active, agents)
    ensures Tracks(if FoldedName(agent) in active then active else active[FoldedName(agent) := agent.source],
                   agents + [agent])
  {
    var active' := if FoldedName(agent) in active then active else active[FoldedName(agent) := agent.source];
    forall key
      ensures Lookup(active', key) == FirstSource(agents + [agent], key)
    {
      assert Lookup(active, key) == FirstSource(agents, key);
      assert Lookup(active, FoldedName(agent)) == FirstSource(agents, FoldedName(agent));
      FirstSourceSnoc(agents, agent, key);
    }
  }

  // ---- The code ----

  method LoadRoot<E>(root: Root<E>) returns (r: Result<seq<Agent>, E>)
    ensures r == ReadRoot(root)
  {
    if root.listing.Failure? {
      return Failure(root.listing.error);
    }
    var entries, agents: seq<Agent> := root.listing.value, [];
    assert entries[0..] == entries;
    for i := 0 to |entries|
      invariant ReadEntries(entries, root.source) == After(agents, ReadEntries(entries[i..], root.source))
    {
      assert entries[i..][1..] == entries[i + 1..];
      var entry := entries[i];
      if entry.Unreadable? {
        return Failure(entry.error);
      }
      if !entry.isToml {
        continue;
      }
      if entry.contents.Failure? {
        return Failure(entry.contents.error);
      }
      var agent := ParseAgent(entry.contents.value, entry.fallbackName, root.source);
      AfterAfter(agents, [agent], ReadEntries(entries[i + 1..], root.source));
      agents := agents + [agent];
    }
    r := Success(SortBy(agents, NameLeq));
  }

  /** The inner loop: adds the agents of one root. */
  method MarkShadowed(agents: seq<Agent>, active: map<string, Source>, more: seq<Agent>)
    returns (agents': seq<Agent>, active': map<string, Source>)
    requires Shadowing(agents) && Tracks(active, agents)
    ensures Shadowing(agents') && Tracks(active', agents')
    ensures SameButMarks(agents', agents + more)
  {
    agents', active' := agents, active;
    for i := 0 to |more|
      invariant Shadowing(agents') && Tracks(active', agents')
      invariant SameButMarks(agents', agents + more[..i])
    {
      var key := FoldedName(more[i]);
      var agent := more[i].(shadowedBy := Lookup(active', key));
      AppendShadowing(agents', agent);
      AppendTracks(active', agents', agent);
      if key !in active' {
        active' := active'[key := agent.source];
      }
      agents' := agents' + [agent];
    }
    assert more[..|more|] == more;
  }

  lemma ReadRootsFirst<E>(roots: seq<Root<E>>, i: nat, collected: seq<Agent>, loaded: seq<Agent>)
    requires i < |roots| && ReadRoot(roots[i]) == Success(loaded)
    ensures After(collected, ReadRoots(roots[i..])) == After(collected + loaded, ReadRoots(roots[i + 1..]))
  {
    assert roots[i..][1..] == roots[i + 1..];
    AfterAfter(collected, loaded, ReadRoots(roots[i + 1..]));
  }

  lemma ReadRootsFails<E>(roots: seq<Root<E>>, i: nat, collected: seq<Agent>)
    requires i < |roots| && ReadRoot(roots[i]).Failure?
    ensures After(collected, ReadRoots(roots[i..])) == ReadRoot(roots[i])
  {}

  lemma SameButMarksMore(a: seq<Agent>, collected: seq<Agent>, loaded: seq<Agent>, a': seq<Agent>)
    requires SameButMarks(a, collected) && SameButMarks(a', a + loaded)
    ensures SameButMarks(a', collected + loaded)
  {}

  /** `load_agents_from_roots`. */
  method LoadAgents<E>(roots: seq<Root<E>>) returns (r: Result<seq<Agent>, E>)
    ensures ReadRoots(roots).Failure? ==> r == ReadRoots(roots)
    ensures ReadRoots(roots).Success? ==>
      r.Success? && SameButMarks(r.value, ReadRoots(roots).value) && Shadowing(r.value)
  {
    var agents: seq<Agent> := [];
    var active: map<string, Source> := map[];
    ghost var collected: seq<Agent> := [];
    assert roots[0..] == roots;
    for i := 0 to |roots|
      invariant SameButMarks(agents, collected)
      invariant Shadowing(agents) && Tracks(active, agents)
      invariant ReadRoots(roots) == After(collected, ReadRoots(roots[i..]))
    {
      var loaded := LoadRoot(roots[i]);
      if loaded.Failure? {
        ReadRootsFails(roots, i, collected);
        return loaded;
      }
      ReadRootsFirst(roots, i, collected, loaded.value);
      ghost var earlier := agents;
      agents, active := MarkShadowed(agents, active, loaded.value);
      SameButMarksMore(earlier, collected, loaded.value, agents);
      collected := collected + loaded.value;
    }
    r := Success(agents);
  }

  // ---- Consequences ----

  /** Where the first agent of a name stands. */
  lemma {:induction false} FirstSourceIndex(agents: seq<Agent>, key: string) returns (first: nat)
    requires exists i | 0 <= i < |agents| :: FoldedName(agents[i]) == key
    ensures first < |agents| && FoldedName(agents[first]) == key
    ensures forall j | 0 <= j < first :: FoldedName(agents[j]) != key
    ensures FirstSource(agents, key) == Some(agents[first].source)
  {
    if FoldedName(agents[0]) == key {
      first := 0;
    } else {
      first := FirstSourceIndex(agents[1..], key);
      first := first + 1;
    }
  }

  lemma {:induction false} FirstSourceNone(agents: seq<Agent>, key: string)
    requires forall i | 0 <= i < |agents| :: FoldedName(agents[i]) != key
    ensures FirstSource(agents, key) == None
  {
    if agents != [] {
      FirstSourceNone(agents[1..], key);
    }
  }

  /** Their names differ in capitals only. */
  predicate SameName(a: Agent, b: Agent) {
    SameLetters(a.name, b.name)
  }

  /** Among the agents of one name, capitals aside, exactly one is unshadowed: the first; each of the others
      carries its source. */
  lemma OneUnshadowedPerName(agents: seq<Agent>, i: nat) returns (first: nat)
    requires Shadowing(agents) && i < |agents|
    ensures first <= i && SameName(agents[first], agents[i])
    ensures forall j | 0 <= j < |agents| && SameName(agents[j], agents[i]) ::
      && first <= j
      && agents[j].shadowedBy == if j == first then None else Some(agents[first].source)
  {
    first := FirstOfFolded(agents, i);
    FoldedAlike(agents[first].name, agents[i].name);
    forall j | 0 <= j < |agents| && SameName(agents[j], agents[i])
      ensures first <= j
      ensures agents[j].shadowedBy == if j == first then None else Some(agents[first].source)
    {
      FoldedAlike(agents[j].name, agents[i].name);
    }
  }

  lemma FirstOfFolded(agents: seq<Agent>, i: nat) returns (first: nat)
    requires Shadowing(agents) && i < |agents|
    ensures first <= i && FoldedName(agents[first]) == FoldedName(agents[i])
    ensures forall j | 0 <= j < |agents| && FoldedName(agents[j]) == FoldedName(agents[i]) ::
      && first <= j
      && agents[j].shadowedBy == if j == first then None else Some(agents[first].source)
  {
    var key := FoldedName(agents[i]);
    first := FirstSourceIndex(agents, key);
    FirstSourceNone(agents[..first], key);
    forall j | 0 <= j < |agents| && FoldedName(agents[j]) == key && j != first
      ensures first <= j && agents[j].shadowedBy == Some(agents[first].source)
    {
      assert agents[..j][first] == agents[first];
      var k := FirstSourceIndex(agents[..j], key);
      assert agents[..j][k] == agents[k];
      assert k == first;
    }
  }

  function CountUnshadowed(agents: seq<Agent>): nat {
    if agents == [] then 0
    else CountUnshadowed(agents[..|agents| - 1]) + (if agents[|agents| - 1].shadowedBy == None then 1 else 0)
  }

  function FoldedNames(agents: seq<Agent>): set<string> {
    set i | 0 <= i < |agents| :: FoldedName(agents[i])
  }

  lemma FoldedNamesSnoc(agents: seq<Agent>, agent: Agent)
    ensures FoldedNames(agents + [agent]) == FoldedNames(agents) + {FoldedName(agent)}
    ensures FoldedName(agent) in FoldedNames(agents) <==> FirstSource(agents, FoldedName(agent)).Some?
  {
    var longer, key := agents + [agent], FoldedName(agent);
    forall name | name in FoldedNames(agents) + {key}
      ensures name in FoldedNames(longer)
    {
      if name == key {
        assert longer[|agents|] == agent;
      } else {
        var i :| 0 <= i < |agents| && FoldedName(agents[i]) == name;
        assert longer[i] == agents[i];
      }
    }
    if key in FoldedNames(agents) {
      var _ := FirstSourceIndex(agents, key);
    } else {
      assert forall i | 0 <= i < |agents| :: FoldedName(agents[i]) in FoldedNames(agents);
      FirstSourceNone(agents, key);
    }
  }

  lemma ShadowingPrefix(agents: seq<Agent>, n: nat)
    requires Shadowing(agents) && n <= |agents|
    ensures Shadowing(agents[..n])
  {
    forall j | 0 <= j < n
      ensures agents[..n][j].shadowedBy == FirstSource(agents[..n][..j], FoldedName(agents[..n][j]))
    {
      assert agents[..n][..j] == agents[..j];
    }
  }

  lemma CountsSnoc(agents: seq<Agent>, agent: Agent)
    ensures |FoldedNames(agents + [agent])|
         == |FoldedNames(agents)| + (if FirstSource(agents, FoldedName(agent)).Some? then 0 else 1)
    ensures CountUnshadowed(agents + [agent])
         == CountUnshadowed(agents) + (if agent.shadowedBy == None then 1 else 0)
  {
    FoldedNamesSnoc(agents, agent);
    if FoldedName(agent) in FoldedNames(agents) {
      assert FoldedNames(agents) + {FoldedName(agent)} == FoldedNames(agents);
    }
    assert (agents + [agent])[..|agents|] == agents;
  }

  /** As many agents are unshadowed as there are distinct folded names. */
  lemma {:induction false} UnshadowedCount(agents: seq<Agent>)
    requires Shadowing(agents)
    ensures CountUnshadowed(agents) == |FoldedNames(agents)|
  {
    if agents != [] {
      var n := |agents| - 1;
      ShadowingPrefix(agents, n);
      UnshadowedCount(agents[..n]);
      CountsSnoc(agents[..n], agents[n]);
      assert agents == agents[..n] + [agents[n]];
      assert agents[n].shadowedBy == FirstSource(agents[..n], FoldedName(agents[n]));
    }
  }
}
