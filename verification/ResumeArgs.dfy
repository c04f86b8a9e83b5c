/** Grouping the trailing arguments of `--resume` into slash commands. */
module ResumeArgs {
  import opened Wrappers
  import opened Text
  import opened Sequences
  import opened Suggestions

  const LATEST := "latest"

  datatype Resume = Resume(sessionPath: string, commands: seq<string>)

  // ---- Recognizing commands ----

  /** The first word of `split_whitespace`, empty if there is none. */
  function FirstWord(s: string): string {
    WordAt(TrimStart(s))
  }

  function WordAt(s: string): string {
    if s == "" || IsWhitespace(s[0]) then "" else [s[0]] + WordAt(s[1..])
  }

  predicate StartsSlash(token: string) {
    StartsWith(TrimStart(token), "/")
  }

  /** `looks_like_slash_command_token`: the first word after the slash is a known command. */
  predicate IsKnownCommand(token: string, specs: seq<Spec>) {
    StartsSlash(token)
    && var name := FirstWord(TrimStart(token)[1..]);
    name != "" && exists i | 0 <= i < |specs| :: specs[i].name == name || name in specs[i].aliases
  }

  /** The text parses as an export command without a path. */
  predicate IsBareExport(command: string) {
    var trimmed := Trim(command);
    && StartsWith(trimmed, "/")
    && FirstWord(TrimStartMatches(trimmed, '/')) == "export"
    && !(StartsWith(trimmed, "/export") && Trim(trimmed[|"/export"|..]) != "")
  }

  /** A bare export takes a token that starts with a slash but names no command: a path. */
  predicate Absorbs(command: string, token: string, specs: seq<Spec>) {
    IsBareExport(command) && !IsKnownCommand(token, specs)
  }

  /** Without a session path of its own, the latest session is resumed. */
  function SessionPath(args: seq<string>, specs: seq<Spec>): string {
    if args == [] || IsKnownCommand(args[0], specs) then LATEST else args[0]
  }

  function CommandTokens(args: seq<string>, specs: seq<Spec>): seq<string> {
    if args == [] || IsKnownCommand(args[0], specs) then args else args[1..]
  }

  // ---- What the grouping is ----

  /** A token that the tokens before it in its command have to take. */
  predicate Continues(group: seq<string>, token: string, specs: seq<Spec>) {
    !StartsSlash(token) || Absorbs(Join(group, " "), token, specs)
  }

  /** A slash token and the tokens that it takes. */
  ghost predicate IsGroup(group: seq<string>, specs: seq<Spec>) {
    && group != [] && StartsSlash(group[0])
    && forall k | 1 <= k < |group| :: Continues(group[..k], group[k], specs)
  }

  /** Every token is in the group it belongs to: a new group starts only where the one before
      could not go on. */
  ghost predicate IsGrouping(groups: seq<seq<string>>, tokens: seq<string>, specs: seq<Spec>) {
    && Flatten(groups) == tokens
    && (forall i | 0 <= i < |groups| :: IsGroup(groups[i], specs))
    && (forall i | 0 < i < |groups| :: !Continues(groups[i - 1], groups[i][0], specs))
  }

  function JoinGroups(groups: seq<seq<string>>): (commands: seq<string>)
    ensures |commands| == |groups|
    ensures forall i | 0 <= i < |groups| :: commands[i] == Join(groups[i], " ")
  {
    seq(|groups|, i requires 0 <= i < |groups| => Join(groups[i], " "))
  }

  // ---- The code ----

  lemma StartsSlashNotEmpty(token: string)
    requires StartsSlash(token)
    ensures token != ""
  {}

  lemma IsGroupSnoc(group: seq<string>, token: string, specs: seq<Spec>)
    requires IsGroup(group, specs) && Continues(group, token, specs)
    ensures IsGroup(group + [token], specs)
  {
    var longer := group + [token];
    forall k | 1 <= k < |longer|
      ensures Continues(longer[..k], longer[k], specs)
    {
      assert longer[..k] == if k < |group| then group[..k] else group;
    }
  }

  lemma FlattenSnoc(groups: seq<seq<string>>, group: seq<string>)
    ensures Flatten(groups + [group]) == Flatten(groups) + group
  {
    assert (groups + [group])[..|groups|] == groups;
  }

  /** A command starts with its first token. */
  lemma JoinStarts(group: seq<string>)
    requires group != []
    ensures group[0] <= Join(group, " ")
  {}

  /** `parse_resume_args`. The first argument is the session, unless there is none or it names a command;
      then it is the latest one. Of the other arguments no text is lost, each command starts with a slash
      after leading blanks, and `groups` witnesses how they are grouped. */
  method ParseResumeArgs(args: seq<string>, specs: seq<Spec>)
    returns (r: Result<Resume, string>, ghost groups: seq<seq<string>>)
    ensures var tokens := if args == [] || IsKnownCommand(args[0], specs) then args else args[1..];
      r.Failure? <==> tokens != [] && !StartsSlash(tokens[0])
    ensures r.Success? ==>
      var tokens := if args == [] || IsKnownCommand(args[0], specs) then args else args[1..];
      && r.value.sessionPath == (if args == [] || IsKnownCommand(args[0], specs) then "latest" else args[0])
      && Join(r.value.commands, " ") == Join(tokens, " ")
      && forall i | 0 <= i < |r.value.commands| :: StartsSlash(r.value.commands[i])
    ensures r.Success? ==>
      IsGrouping(groups, CommandTokens(args, specs), specs) && r.value.commands == JoinGroups(groups)
  {
    var tokens := CommandTokens(args, specs);
    var grouped;
    grouped, groups := GroupTokens(tokens, specs);
    if grouped.Failure? {
      return Failure(grouped.error), [];
    }
    ParsedCommands(groups, tokens, specs);
    r := Success(Resume(SessionPath(args, specs), grouped.value));
  }

  /** What the loop keeps: the finished groups, the current one, and their texts. */
  ghost predicate Grouped(groups: seq<seq<string>>, group: seq<string>, commands: seq<string>, current: string,
                          tokens: seq<string>, specs: seq<Spec>)
  {
    && commands == JoinGroups(groups) && current == Join(group, " ")
    && if tokens == [] then groups == [] && group == []
       else current != "" && StartsSlash(tokens[0]) && IsGrouping(groups + [group], tokens, specs)
  }

  /** The loop over the command tokens. */
  method GroupTokens(tokens: seq<string>, specs: seq<Spec>)
    returns (r: Result<seq<string>, string>, ghost groups: seq<seq<string>>)
    ensures r.Failure? <==> tokens != [] && !StartsSlash(tokens[0])
    ensures r.Success? ==> IsGrouping(groups, tokens, specs) && r.value == JoinGroups(groups)
  {
    var commands: seq<string> := [];
    var current := "";
    groups := [];
    ghost var group: seq<string> := [];
    for i := 0 to |tokens|
      invariant Grouped(groups, group, commands, current, tokens[..i], specs)
    {
      var token := tokens[i];
      if StartsSlash(token) {
        if Absorbs(current, token, specs) {
          TokenJoins(groups, group, commands, current, tokens, i, specs);
          current := current + " " + token;
          group := group + [token];
          continue;
        }
        TokenStarts(groups, group, commands, current, tokens, i, specs);
        if current != "" {
          commands := commands + [current];
          groups := groups + [group];
        }
        current := token;
        group := [token];
        continue;
      }
      if current == "" {
        return Failure("--resume trailing arguments must be slash commands"), [];
      }
      TokenJoins(groups, group, commands, current, tokens, i, specs);
      current := current + " " + token;
      group := group + [token];
    }
    assert tokens[..|tokens|] == tokens;
    if current != "" {
      commands := commands + [current];
      groups := groups + [group];
    }
    r := Success(commands);
  }

  lemma EmptyAbsorbsNothing(token: string, specs: seq<Spec>)
    ensures !Absorbs("", token, specs)
  {}

  /** A token joins the current group. */
  lemma TokenJoins(groups: seq<seq<string>>, group: seq<string>, commands: seq<string>, current: string,
                   tokens: seq<string>, i: nat, specs: seq<Spec>)
    requires i < |tokens| && Grouped(groups, group, commands, current, tokens[..i], specs)
    requires Absorbs(current, tokens[i], specs) || (current != "" && !StartsSlash(tokens[i]))
    ensures Grouped(groups, group + [tokens[i]], commands, current + " " + tokens[i], tokens[..i + 1], specs)
  {
    EmptyAbsorbsNothing(tokens[i], specs);
    assert current != "" ==> tokens[..i] != [];
    assert tokens[..i + 1] == tokens[..i] + [tokens[i]];
    GroupGoesOn(groups, group, tokens[..i], tokens[i], specs);
  }

  /** A token starts a group of its own. */
  lemma TokenStarts(groups: seq<seq<string>>, group: seq<string>, commands: seq<string>, current: string,
                    tokens: seq<string>, i: nat, specs: seq<Spec>)
    requires i < |tokens| && Grouped(groups, group, commands, current, tokens[..i], specs)
    requires StartsSlash(tokens[i]) && !Absorbs(current, tokens[i], specs)
    ensures var groups', commands' := if current == "" then groups else groups + [group],
                                      if current == "" then commands else commands + [current];
      Grouped(groups', [tokens[i]], commands', tokens[i], tokens[..i + 1], specs)
  {
    assert tokens[..i + 1] == tokens[..i] + [tokens[i]];
    StartsSlashNotEmpty(tokens[i]);
    GroupStarts(groups, group, tokens[..i], tokens[i], specs);
    var groups' := if current == "" then groups else groups + [group];
    assert current == "" ==> groups' == [];
  }

  lemma GroupGoesOn(groups: seq<seq<string>>, group: seq<string>, tokens: seq<string>, token: string, specs: seq<Spec>)
    requires tokens != [] && IsGrouping(groups + [group], tokens, specs) && Continues(group, token, specs)
    ensures IsGrouping(groups + [group + [token]], tokens + [token], specs)
    ensures Join(group + [token], " ") == Join(group, " ") + " " + token
  {
    var before, after := groups + [group], groups + [group + [token]];
    var n := |groups|;
    assert IsGroup(before[n], specs);
    IsGroupSnoc(group, token, specs);
    JoinSnoc(group, token, " ");
    FlattenSnoc(groups, group);
    FlattenSnoc(groups, group + [token]);
    assert Flatten(groups) + (group + [token]) == (Flatten(groups) + group) + [token];
    forall i | 0 <= i < |after|
      ensures IsGroup(after[i], specs)
    {
      assert i < n ==> after[i] == before[i];
    }
    forall i | 0 < i < |after|
      ensures !Continues(after[i - 1], after[i][0], specs)
    {
      assert !Continues(before[i - 1], before[i][0], specs);
    }
  }

  lemma GroupStarts(groups: seq<seq<string>>, group: seq<string>, tokens: seq<string>, token: string, specs: seq<Spec>)
    requires StartsSlash(token)
    requires tokens == [] ==> groups == []
    requires tokens != [] ==> IsGrouping(groups + [group], tokens, specs) && !Continues(group, token, specs)
    ensures IsGrouping((if tokens == [] then [] else groups + [group]) + [[token]], tokens + [token], specs)
  {
    var before := if tokens == [] then [] else groups + [group];
    var after := before + [[token]];
    FlattenSnoc(before, [token]);
    forall i | 0 < i < |after|
      ensures !Continues(after[i - 1], after[i][0], specs)
    {
      if i < |before| {
        assert !Continues(before[i - 1], before[i][0], specs);
      }
    }
  }

  // ---- What the grouping promises ----

  lemma TailGrouping(groups: seq<seq<string>>, tokens: seq<string>, specs: seq<Spec>)
    requires IsGrouping(groups, tokens, specs) && groups != []
    ensures groups[0] <= tokens && IsGrouping(groups[1..], tokens[|groups[0]|..], specs)
  {
    var tail := groups[1..];
    FlattenCons(groups);
    assert tokens[|groups[0]|..] == Flatten(tail);
    forall i | 0 < i < |tail|
      ensures !Continues(tail[i - 1], tail[i][0], specs)
    {
      assert !Continues(groups[i], groups[i + 1][0], specs);
    }
  }

  lemma NextStartsGroup(groups: seq<seq<string>>, tokens: seq<string>, specs: seq<Spec>)
    requires IsGrouping(groups, tokens, specs) && groups != [] && |groups[0]| < |tokens|
    ensures groups[0] == tokens[..|groups[0]|] && !Continues(groups[0], tokens[|groups[0]|], specs)
  {
    TailGrouping(groups, tokens, specs);
    var tail := groups[1..];
    GroupsCover(tail, specs);
    FlattenCons(groups);
    FlattenCons(tail);
    assert tokens[|groups[0]|] == Flatten(tail)[0] == groups[1][0];
    assert !Continues(groups[1 - 1], groups[1][0], specs);
  }

  lemma InsideGroup(groups: seq<seq<string>>, tokens: seq<string>, n: nat, specs: seq<Spec>)
    requires IsGrouping(groups, tokens, specs) && groups != [] && 1 <= n < |groups[0]|
    ensures n < |tokens| && Continues(tokens[..n], tokens[n], specs)
  {
    TailGrouping(groups, tokens, specs);
    assert groups[0] == tokens[..|groups[0]|];
    assert groups[0][..n] == tokens[..n];
    assert IsGroup(groups[0], specs);
  }

  /** The first group reaches at least as far as the first group of any other grouping. */
  lemma FirstGroupReaches(a: seq<seq<string>>, b: seq<seq<string>>, tokens: seq<string>, specs: seq<Spec>)
    requires IsGrouping(a, tokens, specs) && IsGrouping(b, tokens, specs) && a != [] && b != []
    ensures |a[0]| >= |b[0]|
  {
    if |a[0]| < |b[0]| {
      assert IsGroup(a[0], specs);
      InsideGroup(b, tokens, |a[0]|, specs);
      NextStartsGroup(a, tokens, specs);
      assert false;
    }
  }

  /** There is one grouping of the tokens. */
  lemma {:induction false} GroupingUnique(a: seq<seq<string>>, b: seq<seq<string>>, tokens: seq<string>,
                                          specs: seq<Spec>)
    requires IsGrouping(a, tokens, specs) && IsGrouping(b, tokens, specs)
    ensures a == b
    decreases |a|
  {
    if a == [] || b == [] {
      GroupsCover(a, specs);
      GroupsCover(b, specs);
    } else {
      FirstGroupReaches(a, b, tokens, specs);
      FirstGroupReaches(b, a, tokens, specs);
      TailGrouping(a, tokens, specs);
      TailGrouping(b, tokens, specs);
      assert a[0] == tokens[..|a[0]|] == b[0];
      GroupingUnique(a[1..], b[1..], tokens[|a[0]|..], specs);
      assert a == [a[0]] + a[1..] && b == [b[0]] + b[1..];
    }
  }

  lemma GroupsCover(groups: seq<seq<string>>, specs: seq<Spec>)
    requires forall i | 0 <= i < |groups| :: IsGroup(groups[i], specs)
    ensures Flatten(groups) == [] <==> groups == []
  {
    if groups != [] {
      assert IsGroup(groups[|groups| - 1], specs);
    }
  }

  lemma JoinGroupsSnoc(groups: seq<seq<string>>, n: nat)
    requires n + 1 == |groups|
    ensures JoinGroups(groups) == JoinGroups(groups[..n]) + [Join(groups[n], " ")]
  {}

  /** One group more on both sides. */
  lemma JoinOneMore(commands: seq<string>, tokens: seq<string>, group: seq<string>)
    requires Join(commands, " ") == Join(tokens, " ") && (commands == [] <==> tokens == []) && group != []
    ensures Join(commands + [Join(group, " ")], " ") == Join(tokens + group, " ")
  {
    if commands == [] {
      assert commands + [Join(group, " ")] == [Join(group, " ")] && tokens + group == group;
    } else {
      JoinSnoc(commands, Join(group, " "), " ");
      JoinAppend(tokens, group, " ");
    }
  }

  /** No text is lost: the commands joined with blanks are the tokens joined with blanks. */
  lemma {:induction false} GroupsConserve(groups: seq<seq<string>>, specs: seq<Spec>)
    requires forall i | 0 <= i < |groups| :: IsGroup(groups[i], specs)
    ensures Join(JoinGroups(groups), " ") == Join(Flatten(groups), " ")
  {
    if groups != [] {
      var n := |groups| - 1;
      GroupsConserve(groups[..n], specs);
      GroupsCover(groups[..n], specs);
      JoinGroupsSnoc(groups, n);
      assert IsGroup(groups[n], specs);
      JoinOneMore(JoinGroups(groups[..n]), Flatten(groups[..n]), groups[n]);
    }
  }

  lemma {:induction false} TrimStartPrefix(s: string, t: string)
    requires s <= t && TrimStart(s) != ""
    ensures TrimStart(s) <= TrimStart(t)
  {
    if IsWhitespace(s[0]) {
      TrimStartPrefix(s[1..], t[1..]);
    }
  }

  /** Each command starts with a slash after leading blanks. */
  lemma CommandsStartWithSlash(group: seq<string>, specs: seq<Spec>)
    requires IsGroup(group, specs)
    ensures StartsSlash(Join(group, " "))
  {
    JoinStarts(group);
    TrimStartPrefix(group[0], Join(group, " "));
  }

  /** A successful parse, in terms of its result alone. */
  lemma ParsedCommands(groups: seq<seq<string>>, tokens: seq<string>, specs: seq<Spec>)
    requires IsGrouping(groups, tokens, specs)
    ensures var commands := JoinGroups(groups);
      && Join(commands, " ") == Join(tokens, " ")
      && forall i | 0 <= i < |commands| :: StartsSlash(commands[i])
  {
    GroupsConserve(groups, specs);
    forall i | 0 <= i < |groups|
      ensures StartsSlash(JoinGroups(groups)[i])
    {
      CommandsStartWithSlash(groups[i], specs);
    }
  }

  // ---- What is recognized ----

  /** A name as a user types it: no blanks, and no slash in front. */
  predicate IsWord(word: string) {
    word != "" && word[0] != '/' && forall i | 0 <= i < |word| :: !IsWhitespace(word[i])
  }

  /** Nothing, or something set off by a blank. */
  predicate IsTail(tail: string) {
    tail == "" || IsWhitespace(tail[0])
  }

  lemma {:induction false} WordBefore(word: string, tail: string)
    requires IsTail(tail) && forall i | 0 <= i < |word| :: !IsWhitespace(word[i])
    ensures WordAt(word + tail) == word
  {
    if word == "" {
      assert word + tail == tail;
    } else {
      assert (word + tail)[0] == word[0] && (word + tail)[1..] == word[1..] + tail;
      WordBefore(word[1..], tail);
      assert word == [word[0]] + word[1..];
    }
  }

  lemma FirstWordOf(word: string, tail: string)
    requires IsWord(word) && IsTail(tail)
    ensures FirstWord(word + tail) == word
  {
    assert (word + tail)[0] == word[0];
    TrimStartOf("", word + tail);
    assert "" + (word + tail) == word + tail;
    WordBefore(word, tail);
  }

  ghost predicate InTable(word: string, specs: seq<Spec>) {
    exists i | 0 <= i < |specs| ::
      specs[i].name == word || exists k | 0 <= k < |specs[i].aliases| :: specs[i].aliases[k] == word
  }

  /** A token names a command exactly when the first word behind its slash is the name of a command or one
      of its aliases, whatever follows. */
  lemma KnownExactly(before: string, word: string, tail: string, specs: seq<Spec>)
    requires Blank(before) && IsWord(word) && IsTail(tail)
    ensures IsKnownCommand(before + ("/" + (word + tail)), specs) <==> InTable(word, specs)
  {
    var command := "/" + (word + tail);
    TrimStartOf(before, command);
    assert command[1..] == word + tail && "/" <= command;
    FirstWordOf(word, tail);
  }

  /** A token without a slash names no command. */
  lemma SlashNeeded(token: string, specs: seq<Spec>)
    requires TrimStart(token) == "" || TrimStart(token)[0] != '/'
    ensures !IsKnownCommand(token, specs)
  {}

  lemma CommandParts(slashes: string, word: string, tail: string)
    requires slashes != "" && forall i | 0 <= i < |slashes| :: slashes[i] == '/'
    requires IsWord(word) && IsTail(tail) && (tail == "" || !IsWhitespace(tail[|tail| - 1]))
    ensures var command := slashes + (word + tail);
      Trim(command) == command && FirstWord(TrimStartMatches(command, '/')) == word
  {
    var command := slashes + (word + tail);
    assert command[0] == '/' && command[|command| - 1] == (word + tail)[|word + tail| - 1];
    TrimOf("", command, "");
    assert "" + command + "" == command;
    TrimStartMatchesOf(slashes, word + tail, '/');
    FirstWordOf(word, tail);
  }

  /** A command without anything behind its name is a bare export exactly when it is `/export`. */
  lemma BareExactly(word: string)
    requires IsWord(word)
    ensures IsBareExport("/" + word) <==> word == "export"
  {
    CommandParts("/", word, "");
    assert word + "" == word;
    if word == "export" {
      assert ("/" + word)[|"/export"|..] == "";
      assert Trim("") == "";
    }
  }

  /** With anything behind it, it is not. */
  lemma NotBareWithMore(word: string, tail: string)
    requires IsWord(word) && tail != "" && IsWhitespace(tail[0]) && !IsWhitespace(tail[|tail| - 1])
    ensures !IsBareExport("/" + (word + tail))
  {
    var command := "/" + (word + tail);
    CommandParts("/", word, tail);
    if word == "export" {
      assert command == "/export" + tail;
      assert command[|"/export"|..] == tail;
      TrimNotEmpty(tail);
    }
  }

  lemma {:induction false} TrimNotEmpty(s: string)
    requires s != "" && !IsWhitespace(s[|s| - 1])
    ensures Trim(s) != ""
  {
    if IsWhitespace(s[0]) {
      TrimNotEmpty(s[1..]);
    } else {
      TrimEndOf(s, "");
      assert s + "" == s;
    }
  }

  /** A command alone takes a token with a slash exactly when it is `/export` and the token names no
      command; any command takes a token without a slash. */
  lemma TakesExactly(word: string, next: string, tail: string, specs: seq<Spec>)
    requires IsWord(word) && IsWord(next) && IsTail(tail)
    ensures Continues(["/" + word], "/" + (next + tail), specs) <==> word == "export" && !InTable(next, specs)
    ensures Continues(["/" + word], next + tail, specs)
  {
    BareExactly(word);
    KnownExactly("", next, tail, specs);
    assert "" + ("/" + (next + tail)) == "/" + (next + tail);
    TrimStartOf("", "/" + (next + tail));
    assert (next + tail)[0] == next[0];
    TrimStartOf("", next + tail);
    assert "" + (next + tail) == next + tail;
  }

  /** With two slashes it stays bare whatever is behind it, so that it takes every path that follows. */
  lemma TwoSlashesStayBare(tail: string)
    requires IsTail(tail) && (tail == "" || !IsWhitespace(tail[|tail| - 1]))
    ensures IsBareExport("//" + ("export" + tail))
  {
    var command := "//" + ("export" + tail);
    CommandParts("//", "export", tail);
    assert command[0] == '/' && command[1] == '/';
  }
}
