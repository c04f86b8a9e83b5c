/** When the agent loop compacts its history, and to what. */
module Compaction {
  import opened Text
  import opened Sequences
  import opened TurnLoop
  import opened TurnAccount

  // ---- When ----

  ghost predicate IsMultiple(n: int, c: int) {
    exists k: int :: k * c == n
  }

  lemma {:induction false} AtLeast(d: nat, c: nat)
    requires d > 0
    ensures d * c >= c
  {
    if d > 1 {
      AtLeast(d - 1, c);
      assert d * c == (d - 1) * c + c;
    }
  }

  lemma Distribute(k: int, q: int, c: int)
    ensures (k - q) * c == k * c - q * c
    ensures (q - k) * c == q * c - k * c
    ensures (k - q) * -c == -(k * c - q * c)
    ensures (q - k) * -c == -(q * c - k * c)
  {}

  /** A multiple that is closer than the divisor is the same. */
  lemma SameMultiple(k: int, q: int, c: int, r: int)
    requires k * c == q * c + r && 0 <= r < (if c < 0 then -c else c)
    ensures r == 0
  {
    Distribute(k, q, c);
    if k > q {
      if c > 0 { AtLeast(k - q, c); } else { AtLeast(k - q, -c); }
    } else if k < q {
      if c > 0 { AtLeast(q - k, c); } else { AtLeast(q - k, -c); }
    }
  }

  lemma MultipleByRemainder(n: int, c: int)
    requires c != 0
    ensures n % c == 0 <==> IsMultiple(n, c)
  {
    var q, r := n / c, n % c;
    assert n == q * c + r && 0 <= r < (if c < 0 then -c else c);
    if k: int :| k * c == n {
      SameMultiple(k, q, c, r);
    } else {
      assert r != 0;
    }
  }

  /** A turn below the limit counts as one, and compacts the whole history exactly when its number is a
      multiple of the configured one and there are more than four messages. */
  lemma TurnCompacts(s: Session, userInput: string, config: Config, provider: Provider, execute: Executor)
    requires config.compactAfter != 0 && 0 <= s.turnCount < config.maxTurns
    ensures var trace := TurnTrace(s, userInput, config, provider, execute);
      var full, after := s.history + trace.added, AfterTurn(s, userInput, config, provider, execute);
      && after.turnCount == s.turnCount + 1
      && after.tokens.input == s.tokens.input + trace.tokens.input
      && after.tokens.output == s.tokens.output + trace.tokens.output
      && if IsMultiple(s.turnCount + 1, config.compactAfter) && |full| > 4
         then after.history == Compacted(full) && after.compactions == s.compactions + 1
         else after.history == full && after.compactions == s.compactions
  {
    MultipleByRemainder(s.turnCount + 1, config.compactAfter);
  }

  // ---- To what ----

  function MessageText(messages: seq<Message>): string {
    if messages == [] then "" else BlockText(messages[0].content) + MessageText(messages[1..])
  }

  lemma {:induction false} TextsOfBlocks(content: seq<ContentBlock>)
    ensures Concat(TextsOf(content)) == BlockText(content)
  {
    if content != [] {
      TextsOfBlocks(content[1..]);
      var rest := TextsOf(content[1..]);
      assert [] + rest == rest && "" + BlockText(content[1..]) == BlockText(content[1..]);
      if content[0].TextBlock? {
        assert ([content[0].text] + rest)[1..] == rest;
      }
    }
  }

  lemma {:induction false} ConcatAppend(a: seq<string>, b: seq<string>)
    ensures Concat(a + b) == Concat(a) + Concat(b)
  {
    if a == [] {
      assert a + b == b && "" + Concat(b) == Concat(b);
    } else {
      assert (a + b)[0] == a[0] && (a + b)[1..] == a[1..] + b;
      ConcatAppend(a[1..], b);
      Regroup(a[0], Concat(a[1..]), Concat(b));
    }
  }

  /** The texts that are summarized are all texts of the messages, in order. */
  lemma {:induction false} TextsAreAll(messages: seq<Message>)
    ensures Concat(AllTexts(messages)) == MessageText(messages)
  {
    if messages != [] {
      TextsAreAll(messages[1..]);
      TextsOfBlocks(messages[0].content);
      ConcatAppend(TextsOf(messages[0].content), AllTexts(messages[1..]));
    }
  }

  /** A long history becomes one message of the user and the last four messages as they are. The message
      holds the texts of the others joined with blanks: all of it up to 160 characters, else the first 157
      and three dots. */
  lemma CompactedExactly(history: seq<Message>)
    requires |history| > 4
    ensures var earlier, compacted := history[..|history| - 4], Compacted(history);
      var all := Join(AllTexts(earlier), " ");
      var shown := if |all| <= 160 then all else all[..157] + "...";
      && compacted == [compacted[0]] + history[|history| - 4..]
      && compacted[0] == Message(User, [TextBlock("[compacted context: " + shown + "]")])
      && Concat(AllTexts(earlier)) == MessageText(earlier)
  {
    TextsAreAll(history[..|history| - 4]);
  }

  /** Four messages or fewer are left alone. */
  lemma ShortStays(history: seq<Message>)
    requires |history| <= 4
    ensures Compacted(history) == history
  {}
}
