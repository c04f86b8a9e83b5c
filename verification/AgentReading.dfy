/** What reading one directory of agent definitions yields: which files count, in which order, and
    what is read from each. */
module AgentReading {
  import opened Wrappers
  import opened Text
  import opened Sequences
  import opened Sorting
  import opened AgentShadowing

  // ---- The files of a directory ----

  function TomlFiles<E>(entries: seq<Entry<E>>): seq<Entry<E>> {
    Filter(entries, (entry: Entry<E>) => entry.File? && entry.isToml)
  }

  predicate Readable<E>(entries: seq<Entry<E>>) {
    && (forall i | 0 <= i < |entries| :: entries[i].File?)
    && (forall i | 0 <= i < |entries| && entries[i].File? && entries[i].isToml :: entries[i].contents.Success?)
  }

  ghost predicate IsRead<E>(agent: Agent, file: Entry<E>, source: Source) {
    && file.File? && file.contents.Success?
    && agent == ParseAgent(file.contents.value, file.fallbackName, source)
  }

  /** The agents are those of the definition files, one for each, in order. */
  ghost predicate AreRead<E>(agents: seq<Agent>, files: seq<Entry<E>>, source: Source) {
    |agents| == |files| && forall i | 0 <= i < |files| :: IsRead(agents[i], files[i], source)
  }

  lemma FilterCons<E>(entry: Entry<E>, rest: seq<Entry<E>>)
    ensures TomlFiles([entry] + rest)
         == (if entry.File? && entry.isToml then [entry] else []) + TomlFiles(rest)
  {
    assert ([entry] + rest)[1..] == rest;
  }

  lemma ReadableCons<E>(entry: Entry<E>, rest: seq<Entry<E>>)
    ensures Readable([entry] + rest)
       <==> Readable(rest) && entry.File? && (entry.isToml ==> entry.contents.Success?)
  {
    var all := [entry] + rest;
    assert forall i | 0 <= i < |rest| :: all[i + 1] == rest[i];
    assert all[0] == entry;
  }

  lemma PairsCons<A, B>(a: A, b: B, x: seq<A>, y: seq<B>, p: (A, B) -> bool)
    requires |x| == |y| && p(a, b) && forall i | 0 <= i < |x| :: p(x[i], y[i])
    ensures forall i | 0 <= i < |[a] + x| :: p(([a] + x)[i], ([b] + y)[i])
  {}

  lemma AreReadCons<E>(agent: Agent, file: Entry<E>, agents: seq<Agent>, files: seq<Entry<E>>, source: Source)
    requires AreRead(agents, files, source) && IsRead(agent, file, source)
    ensures AreRead([agent] + agents, [file] + files, source)
  {
    PairsCons(agent, file, agents, files, (a: Agent, f: Entry<E>) => IsRead(a, f, source));
  }

  lemma ReadEntriesCons<E>(entry: Entry<E>, rest: seq<Entry<E>>, source: Source)
    ensures ReadEntries([entry] + rest, source)
         == if entry.Unreadable? then Failure(entry.error)
            else if !entry.isToml then ReadEntries(rest, source)
            else if entry.contents.Failure? then Failure(entry.contents.error)
            else After([ParseAgent(entry.contents.value, entry.fallbackName, source)], ReadEntries(rest, source))
  {
    assert ([entry] + rest)[1..] == rest;
  }

  /** Reading succeeds exactly when no entry fails and every definition file can be read; then there is one
      agent for each definition file, in listing order. */
  lemma {:induction false} EntriesExactly<E>(entries: seq<Entry<E>>, source: Source)
    ensures ReadEntries(entries, source).Success? <==> Readable(entries)
    ensures Readable(entries) ==> AreRead(ReadEntries(entries, source).value, TomlFiles(entries), source)
  {
    if entries != [] {
      var entry, rest := entries[0], entries[1..];
      assert entries == [entry] + rest;
      EntriesExactly(rest, source);
      ReadEntriesCons(entry, rest, source);
      ReadableCons(entry, rest);
      FilterCons(entry, rest);
      if Readable(entries) {
        if entry.isToml {
          var agent := ParseAgent(entry.contents.value, entry.fallbackName, source);
          AreReadCons(agent, entry, ReadEntries(rest, source).value, TomlFiles(rest), source);
        } else {
          assert [] + TomlFiles(rest) == TomlFiles(rest);
        }
      }
    }
  }

  ghost predicate SortedByName(agents: seq<Agent>) {
    forall i, j | 0 <= i < j < |agents| :: StringLeq(agents[i].name, agents[j].name)
  }

  lemma NameOrdering()
    ensures Ordering(NameLeq)
  {
    forall a: Agent, b: Agent
      ensures NameLeq(a, b) || NameLeq(b, a)
    {
      StringLeqTotal(a.name, b.name);
    }
    forall a: Agent, b: Agent, c: Agent | NameLeq(a, b) && NameLeq(b, c)
      ensures NameLeq(a, c)
    {
      StringLeqTransitive(a.name, b.name, c.name);
    }
  }

  /** The agents of a directory are those of its definition files, sorted by name; those of one name stay in
      listing order. */
  lemma RootExactly<E>(source: Source, entries: seq<Entry<E>>, name: string) returns (read: seq<Agent>)
    requires Readable(entries)
    ensures ReadRoot(Root(source, Success(entries))).Success?
    ensures var agents := ReadRoot(Root(source, Success(entries))).value;
      var same := (agent: Agent) => agent.name == name;
      && AreRead(read, TomlFiles(entries), source)
      && SortedByName(agents) && multiset(agents) == multiset(read) && Filter(agents, same) == Filter(read, same)
  {
    EntriesExactly(entries, source);
    read := ReadEntries(entries, source).value;
    var same := (agent: Agent) => agent.name == name;
    NameOrdering();
    SortBySorted(read, NameLeq);
    SortByPermutes(read, NameLeq);
    StringLeqTotal(name, name);
    SortByStable(read, NameLeq, same);
  }

  /** Roots are read one after the other, and the first that fails decides. */
  lemma {:induction false} RootsInOrder<E>(a: seq<Root<E>>, b: seq<Root<E>>)
    ensures ReadRoots(a + b) == if ReadRoots(a).Failure? then ReadRoots(a) else After(ReadRoots(a).value, ReadRoots(b))
  {
    if a == [] {
      assert a + b == b;
    } else {
      assert (a + b)[0] == a[0] && (a + b)[1..] == a[1..] + b;
      RootsInOrder(a[1..], b);
      if ReadRoot(a[0]).Success? && ReadRoots(a[1..]).Success? {
        AfterAfter(ReadRoot(a[0]).value, ReadRoots(a[1..]).value, ReadRoots(b));
      }
    }
  }

  lemma OneRoot<E>(root: Root<E>)
    ensures ReadRoots([root]) == ReadRoot(root)
  {
    assert [root][1..] == [];
    if ReadRoot(root).Success? {
      assert ReadRoot(root).value + [] == ReadRoot(root).value;
    }
  }

  // ---- The fields of a definition ----

  /** A line that defines `key`, if there is a value. */
  function Defined(key: string, value: Option<string>): seq<string> {
    if value.None? then [] else [key + " = \"" + value.value + "\""]
  }

  /** A definition with its fields one a line. */
  function Definition(name: Option<string>, description: Option<string>, model: Option<string>, effort: Option<string>)
    : seq<string>
  {
    Defined("name", name) + (Defined("description", description)
      + (Defined("model", model) + Defined("model_reasoning_effort", effort)))
  }

  predicate Definable(value: Option<string>) {
    value.Some? ==> value.value != ""
  }

  /** A key as it stands in the file. */
  predicate IsKey(key: string) {
    key != "" && key[0] != '#' && forall i | 0 <= i < |key| :: !IsWhitespace(key[i])
  }

  lemma TrimBare(s: string)
    requires Bare(s)
    ensures Trim(s) == s
  {
    TrimOf("", s, "");
    assert "" + s + "" == s;
  }

  lemma TrimOneBlank(s: string)
    requires Bare(s)
    ensures Trim(" " + s) == s
  {
    TrimOf(" ", s, "");
    assert " " + s + "" == " " + s;
  }

  lemma DefinitionLine(key: string, value: string)
    requires IsKey(key)
    ensures var line := key + " = \"" + value + "\"";
      && Bare(line) && line[0] == key[0] && line == (key + " =") + (" " + ("\"" + value + "\""))
      && Trim(line) == line
  {
    var line := key + " = \"" + value + "\"";
    assert line[0] == key[0] && line[|line| - 1] == '"';
    TrimBare(line);
  }

  lemma DefinedValue(key: string, value: string)
    requires IsKey(key) && value != ""
    ensures TomlValue(key + " = \"" + value + "\"", key) == Some(value)
  {
    var line, prefix, quoted := key + " = \"" + value + "\"", key + " =", "\"" + value + "\"";
    DefinitionLine(key, value);
    assert line[|prefix|..] == " " + quoted;
    TrimOneBlank(quoted);
    assert quoted[1..|quoted| - 1] == value;
  }

  lemma OtherKey(key: string, other: string, rest: string)
    requires IsKey(key) && IsKey(other) && key != other
    ensures !(key + " =" <= other + " =" + rest)
  {
    var prefix, line := key + " =", other + " =" + rest;
    assert prefix[|key|] == ' ' && prefix[..|key|] == key;
    assert line[|other|] == ' ' && line[..|other|] == other;
    assert |key| < |other| ==> line[|key|] == other[|key|];
    assert |other| < |key| ==> prefix[|other|] == key[|other|];
  }

  /** A line that defines another key says nothing about this one. */
  lemma OtherValue(key: string, other: string, value: string)
    requires IsKey(key) && IsKey(other) && key != other
    ensures TomlValue(other + " = \"" + value + "\"", key) == None
  {
    DefinitionLine(other, value);
    OtherKey(key, other, " " + ("\"" + value + "\""));
    assert other + " = \"" + value + "\"" == other + " =" + (" " + ("\"" + value + "\""));
  }

  lemma {:induction false} FirstValueAppend(a: seq<string>, b: seq<string>, key: string)
    ensures FirstTomlValue(a + b, key)
         == if FirstTomlValue(a, key).Some? then FirstTomlValue(a, key) else FirstTomlValue(b, key)
  {
    if a == [] {
      assert a + b == b;
    } else {
      assert (a + b)[0] == a[0] && (a + b)[1..] == a[1..] + b;
      FirstValueAppend(a[1..], b, key);
    }
  }

  lemma DefinedReads(key: string, other: string, value: Option<string>)
    requires IsKey(key) && IsKey(other) && Definable(value)
    ensures FirstTomlValue(Defined(other, value), key) == if key == other then value else None
  {
    if value.Some? {
      var line := other + " = \"" + value.value + "\"";
      assert [line][1..] == [];
      if key == other {
        DefinedValue(key, value.value);
      } else {
        OtherValue(key, other, value.value);
      }
    }
  }

  lemma KeysAreKeys()
    ensures IsKey("name") && IsKey("description") && IsKey("model") && IsKey("model_reasoning_effort")
    ensures "name" != "description" && "name" != "model" && "name" != "model_reasoning_effort"
    ensures "description" != "model" && "description" != "model_reasoning_effort" && "model" != "model_reasoning_effort"
  {
    assert "name"[0] != "description"[0] && "name"[0] != "model"[0] && "description"[0] != "model"[0];
    assert |"model"| != |"model_reasoning_effort"|;
    assert "name"[0] != "model_reasoning_effort"[0] && "description"[0] != "model_reasoning_effort"[0];
  }

  lemma DefinitionReads(key: string, name: Option<string>, description: Option<string>, model: Option<string>,
                        effort: Option<string>)
    requires IsKey(key) && Definable(name) && Definable(description) && Definable(model) && Definable(effort)
    ensures FirstTomlValue(Definition(name, description, model, effort), key)
         == if key == "name" then name else if key == "description" then description
            else if key == "model" then model else if key == "model_reasoning_effort" then effort else None
  {
    var d1, d2 := Defined("name", name), Defined("description", description);
    var d3, d4 := Defined("model", model), Defined("model_reasoning_effort", effort);
    KeysAreKeys();
    FirstValueAppend(d1, d2 + (d3 + d4), key);
    FirstValueAppend(d2, d3 + d4, key);
    FirstValueAppend(d3, d4, key);
    DefinedReads(key, "name", name);
    DefinedReads(key, "description", description);
    DefinedReads(key, "model", model);
    DefinedReads(key, "model_reasoning_effort", effort);
  }

  /** An agent written as a definition, with any of its fields left out, is read back; without a name it is
      named after its file. */
  lemma AgentRoundTrip(contents: string, name: Option<string>, description: Option<string>, model: Option<string>,
                       effort: Option<string>, fallback: string, source: Source)
    requires Lines(contents) == Definition(name, description, model, effort)
    requires Definable(name) && Definable(description) && Definable(model) && Definable(effort)
    ensures ParseAgent(contents, fallback, source)
         == Agent(if name.Some? then name.value else fallback, description, model, effort, source, None)
  {
    KeysAreKeys();
    DefinitionReads("name", name, description, model, effort);
    DefinitionReads("description", name, description, model, effort);
    DefinitionReads("model", name, description, model, effort);
    DefinitionReads("model_reasoning_effort", name, description, model, effort);
  }

  /** Comments and later definitions of a key do not count. */
  lemma FirstCounts(lines: seq<string>, comment: string, more: seq<string>, key: string)
    requires Trim(comment) != "" && Trim(comment)[0] == '#'
    ensures FirstTomlValue([comment] + lines, key) == FirstTomlValue(lines, key)
    ensures FirstTomlValue(lines, key).Some? ==> FirstTomlValue(lines + more, key) == FirstTomlValue(lines, key)
  {
    assert ([comment] + lines)[1..] == lines;
    FirstValueAppend(lines, more, key);
  }
}
