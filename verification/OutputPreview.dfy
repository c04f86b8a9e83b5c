/** Cutting tool output down for display. */
module OutputPreview {
  import opened Text

  // One text, in pieces that are short enough to be searched for a line break character by character.
  const NOTICE :=
    "\U{1b}[2m… output " + "truncated for " + "display; full " + "result preserved" + " in session.\U{1b}[0m"

  // ---- What is shown ----

  function Trimmed(content: string): string {
    TrimEndMatches(content, '\n')
  }

  /** The trimmed output with its lines as the loop sees them. */
  function Whole(content: string): string {
    Join(Lines(Trimmed(content)), "\n")
  }

  predicate LinesFit(lines: seq<string>, maxLines: nat, maxChars: nat) {
    |lines| <= maxLines && |Join(lines, "\n")| <= maxChars
  }

  predicate Fits(content: string, maxLines: nat, maxChars: nat) {
    LinesFit(Lines(Trimmed(content)), maxLines, maxChars)
  }

  function Take<T>(s: seq<T>, n: nat): seq<T> {
    if n < |s| then s[..n] else s
  }

  /** The first `n` characters, less a line break that would be the last of them. */
  function Clip(text: string, n: nat): string {
    var t := Take(text, n);
    if n > 0 && |t| == n && t[n - 1] == '\n' then t[..n - 1] else t
  }

  function KeptOf(lines: seq<string>, maxLines: nat, maxChars: nat): string {
    Clip(Join(Take(lines, maxLines), "\n"), maxChars)
  }

  /** The part of the output before the notice. */
  function Kept(content: string, maxLines: nat, maxChars: nat): string {
    KeptOf(Lines(Trimmed(content)), maxLines, maxChars)
  }

  function WithNotice(kept: string): string {
    (if kept == "" then "" else kept + "\n") + NOTICE
  }

  function Preview(content: string, maxLines: nat, maxChars: nat): string {
    if Trimmed(content) == "" then ""
    else if Fits(content, maxLines, maxChars) then Whole(content)
    else WithNotice(Kept(content, maxLines, maxChars))
  }

  // ---- Joined lines ----

  lemma JoinedLength(lines: seq<string>, line: string)
    ensures |Join(lines + [line], "\n")| == |Join(lines, "\n")| + (if lines == [] then 0 else 1) + |line|
    ensures lines != [] ==> Join(lines + [line], "\n") == Join(lines, "\n") + "\n" + line
    ensures lines == [] ==> Join(lines + [line], "\n") == line
  {
    if lines == [] {
      assert lines + [line] == [line];
    } else {
      JoinSnoc(lines, line, "\n");
    }
  }

  /** Fewer lines join to a prefix, which a line break follows. */
  lemma {:induction false} JoinPrefix(lines: seq<string>, i: nat)
    requires 0 < i < |lines|
    ensures Join(lines[..i], "\n") + "\n" <= Join(lines, "\n")
  {
    assert lines == lines[..i] + lines[i..];
    JoinAppend(lines[..i], lines[i..], "\n");
  }

  /** Lines of a text that does not end in a line break. */
  ghost predicate AreLines(lines: seq<string>) {
    lines != [] && lines[|lines| - 1] != "" && forall i | 0 <= i < |lines| :: '\n' !in lines[i]
  }

  lemma LinesAreLines(s: string)
    requires s != "" && s[|s| - 1] != '\n'
    ensures AreLines(Lines(s))
  {
    var pieces := Split(s, '\n');
    var n := |pieces| - 1;
    JoinSplit(s, '\n');
    assert pieces == pieces[..n] + [pieces[n]];
    JoinedLength(pieces[..n], pieces[n]);
    forall i | 0 <= i < n
      ensures '\n' !in StripReturn(pieces[i])
    {
    }
  }

  // ---- The code ----

  /** `truncate_output_for_display`. */
  method TruncateOutputForDisplay(content: string, maxLines: nat, maxChars: nat) returns (preview: string)
    ensures preview == Preview(content, maxLines, maxChars)
    ensures Fits(content, maxLines, maxChars) ==> preview == Whole(content)
    ensures !Fits(content, maxLines, maxChars) ==>
      var kept := Kept(content, maxLines, maxChars); preview == (if kept == "" then "" else kept + "\n") + NOTICE
  {
    var original := TrimEndMatches(content, '\n');
    if original == "" {
      EmptyHasNoLines();
      return "";
    }
    LinesAreLines(original);
    var previewLines, truncated := PreviewLines(Lines(original), maxLines, maxChars);
    preview := Join(previewLines, "\n");
    if truncated {
      if preview != "" {
        preview := preview + "\n";
      }
      preview := preview + NOTICE;
    }
  }

  /** The loop over the lines. */
  method PreviewLines(lines: seq<string>, maxLines: nat, maxChars: nat)
    returns (previewLines: seq<string>, truncated: bool)
    requires AreLines(lines)
    ensures truncated <==> !LinesFit(lines, maxLines, maxChars)
    ensures Join(previewLines, "\n") == if truncated then KeptOf(lines, maxLines, maxChars) else Join(lines, "\n")
  {
    previewLines := [];
    var usedChars := 0;
    for index := 0 to |lines|
      invariant index <= maxLines
      invariant previewLines == lines[..index]
      invariant usedChars == |Join(lines[..index], "\n")|
      invariant Unclipped(Join(lines[..index], "\n"), maxChars)
    {
      var line := lines[index];
      if index >= maxLines {
        CutAtLines(lines, maxLines, maxChars);
        return previewLines, true;
      }
      var newlineCost := if previewLines == [] then 0 else 1;
      var available := if maxChars > usedChars + newlineCost then maxChars - (usedChars + newlineCost) else 0;
      if available == 0 {
        CutBetweenLines(lines, index, maxLines, maxChars);
        return previewLines, true;
      }
      if |line| > available {
        CutInLine(lines, index, maxLines, maxChars);
        return previewLines + [line[..available]], true;
      }
      ExtendByLine(lines, index, maxChars);
      previewLines := previewLines + [line];
      usedChars := usedChars + newlineCost + |line|;
    }
    assert lines[..|lines|] == lines;
    truncated := false;
  }

  /** Short enough, and not ending in a line break that would have to go. */
  ghost predicate Unclipped(text: string, maxChars: nat) {
    |text| <= maxChars && Clip(text, maxChars) == text
  }

  /** One more whole line fits. */
  lemma ExtendByLine(lines: seq<string>, i: nat, maxChars: nat)
    requires i < |lines| && AreLines(lines)
    requires var cost := if i == 0 then 0 else 1;
      |Join(lines[..i], "\n")| + cost < maxChars && |Join(lines[..i], "\n")| + cost + |lines[i]| <= maxChars
    ensures lines[..i + 1] == lines[..i] + [lines[i]]
    ensures |Join(lines[..i + 1], "\n")| == |Join(lines[..i], "\n")| + (if i == 0 then 0 else 1) + |lines[i]|
    ensures Unclipped(Join(lines[..i + 1], "\n"), maxChars)
  {
    assert lines[..i + 1] == lines[..i] + [lines[i]];
    JoinedLength(lines[..i], lines[i]);
    var joined := Join(lines[..i + 1], "\n");
    if |joined| == maxChars {
      assert joined[maxChars - 1] == lines[i][|lines[i]| - 1];
    }
  }

  /** The first `maxLines` lines fit, and there are more. */
  lemma CutAtLines(lines: seq<string>, maxLines: nat, maxChars: nat)
    requires maxLines < |lines| && Unclipped(Join(lines[..maxLines], "\n"), maxChars)
    ensures !LinesFit(lines, maxLines, maxChars)
    ensures KeptOf(lines, maxLines, maxChars) == Join(lines[..maxLines], "\n")
  {}

  /** The whole output is at least one character longer than any proper part of its lines. */
  lemma MoreThanPrefix(lines: seq<string>, i: nat)
    requires AreLines(lines) && i < |lines|
    ensures |Join(lines, "\n")| > |Join(lines[..i], "\n")| + (if i == 0 then 0 else 1)
  {
    var n := |lines| - 1;
    assert lines == lines[..n] + [lines[n]];
    JoinedLength(lines[..n], lines[n]);
    if 0 < i < n {
      JoinPrefix(lines[..n], i);
      assert lines[..n][..i] == lines[..i];
    }
  }

  /** No character is left for line `i`: what is kept ends with the line before. */
  lemma CutBetweenLines(lines: seq<string>, i: nat, maxLines: nat, maxChars: nat)
    requires AreLines(lines) && i < |lines| && i < maxLines
    requires Unclipped(Join(lines[..i], "\n"), maxChars)
    requires maxChars <= |Join(lines[..i], "\n")| + (if i == 0 then 0 else 1)
    ensures !LinesFit(lines, maxLines, maxChars)
    ensures KeptOf(lines, maxLines, maxChars) == Join(lines[..i], "\n")
  {
    MoreThanPrefix(lines, i);
    var shown := Take(lines, maxLines);
    if i > 0 {
      var joined := Join(lines[..i], "\n");
      assert shown[..i] == lines[..i];
      JoinPrefix(shown, i);
      assert Join(shown, "\n")[..|joined| + 1] == joined + "\n";
      assert Join(shown, "\n")[..|joined|] == joined;
    }
  }

  /** Line `i` fits in part. */
  lemma CutInLine(lines: seq<string>, i: nat, maxLines: nat, maxChars: nat)
    requires AreLines(lines) && i < |lines| && i < maxLines
    requires var used := |Join(lines[..i], "\n")| + (if i == 0 then 0 else 1);
      used < maxChars < used + |lines[i]|
    ensures !LinesFit(lines, maxLines, maxChars)
    ensures var used := |Join(lines[..i], "\n")| + (if i == 0 then 0 else 1);
      KeptOf(lines, maxLines, maxChars) == Join(lines[..i] + [lines[i][..maxChars - used]], "\n")
  {
    var used := |Join(lines[..i], "\n")| + (if i == 0 then 0 else 1);
    PartOfLine(lines, i, maxChars - used);
    var shown := Take(lines, maxLines);
    assert shown[..i + 1] == lines[..i + 1];
    WholeLinePrefix(shown, i);
    WholeLinePrefix(lines, i);
    ClipPrefix(Join(shown, "\n"), Join(lines[..i] + [lines[i][..maxChars - used]], "\n"), maxChars);
  }

  lemma PartOfLine(lines: seq<string>, i: nat, n: nat)
    requires i < |lines| && 0 < n < |lines[i]| && '\n' !in lines[i]
    ensures var part := Join(lines[..i] + [lines[i][..n]], "\n");
      && part <= Join(lines[..i + 1], "\n")
      && |part| == |Join(lines[..i], "\n")| + (if i == 0 then 0 else 1) + n < |Join(lines[..i + 1], "\n")|
      && part[|part| - 1] != '\n'
  {
    JoinedLength(lines[..i], lines[i][..n]);
    JoinedLength(lines[..i], lines[i]);
    assert lines[..i + 1] == lines[..i] + [lines[i]];
    var part := Join(lines[..i] + [lines[i][..n]], "\n");
    assert part[|part| - 1] == lines[i][n - 1];
  }

  lemma ClipPrefix(text: string, prefix: string, n: nat)
    requires prefix <= text && 0 < |prefix| == n && prefix[n - 1] != '\n'
    ensures Clip(text, n) == prefix
  {
    assert text[..n] == prefix;
  }

  lemma WholeLinePrefix(lines: seq<string>, i: nat)
    requires i < |lines|
    ensures Join(lines[..i + 1], "\n") <= Join(lines, "\n")
  {
    if i + 1 < |lines| {
      JoinPrefix(lines, i + 1);
    } else {
      assert lines[..i + 1] == lines;
    }
  }

  // ---- What the result promises ----

  lemma ClipShortens(text: string, n: nat)
    ensures Clip(text, n) <= text && |Clip(text, n)| <= n
  {}

  lemma {:induction false} SplitOfPrefix(prefix: string, text: string)
    requires prefix <= text
    ensures |Split(prefix, '\n')| <= |Split(text, '\n')|
  {
    if prefix != "" {
      SplitOfPrefix(prefix[1..], text[1..]);
    }
  }

  lemma KeptOfWithinLimits(lines: seq<string>, maxLines: nat, maxChars: nat)
    requires AreLines(lines)
    ensures var kept := KeptOf(lines, maxLines, maxChars);
      && kept <= Join(lines, "\n")
      && |kept| <= maxChars
      && (kept == "" || |Split(kept, '\n')| <= maxLines)
  {
    var shown := Take(lines, maxLines);
    ClipShortens(Join(shown, "\n"), maxChars);
    if 0 < maxLines < |lines| {
      JoinPrefix(lines, maxLines);
    }
    if shown != [] {
      SplitJoin(shown, '\n');
      SplitOfPrefix(KeptOf(lines, maxLines, maxChars), Join(shown, "\n"));
    }
  }

  /** The part before the notice is within both limits and a prefix of the lines joined again,
      which for output without carriage returns is a prefix of the output. */
  lemma KeptWithinLimits(content: string, maxLines: nat, maxChars: nat)
    ensures var kept := Kept(content, maxLines, maxChars);
      && kept <= Whole(content)
      && ('\r' !in content ==> kept <= content)
      && |kept| <= maxChars
      && (kept == "" || |Split(kept, '\n')| <= maxLines)
  {
    if Trimmed(content) == "" {
      EmptyHasNoLines();
    } else {
      LinesAreLines(Trimmed(content));
      KeptOfWithinLimits(Lines(Trimmed(content)), maxLines, maxChars);
      if '\r' !in content {
        WholeIsTrimmed(content);
      }
    }
  }

  /** A part of at most so many lines that is longer than all of them joined would have a line more. */
  lemma WithinLines(lines: seq<string>, m: nat, part: string)
    requires AreLines(lines) && m < |lines| && part <= Join(lines, "\n")
    requires part == "" || |Split(part, '\n')| <= m
    ensures part <= Join(lines[..m], "\n")
  {
    if part != "" {
      var joined := Join(lines[..m], "\n");
      JoinPrefix(lines, m);
      if |joined| < |part| {
        assert joined + "\n" <= part;
        JoinSnoc(lines[..m], "", "\n");
        assert joined + "\n" + "" == joined + "\n";
        SplitJoin(lines[..m] + [""], '\n');
        SplitOfPrefix(joined + "\n", part);
      }
    }
  }

  /** No longer part of the output would do: every beginning of the lines joined again that keeps both limits
      and does not end in a line break is part of what is kept. */
  lemma KeptIsLongest(content: string, maxLines: nat, maxChars: nat, part: string)
    requires part <= Whole(content) && |part| <= maxChars && (part == "" || |Split(part, '\n')| <= maxLines)
    requires part == "" || part[|part| - 1] != '\n'
    ensures part <= Kept(content, maxLines, maxChars)
  {
    if Trimmed(content) == "" {
      EmptyHasNoLines();
    } else {
      var lines := Lines(Trimmed(content));
      LinesAreLines(Trimmed(content));
      if maxLines < |lines| {
        WithinLines(lines, maxLines, part);
      }
      ClipKeeps(Join(Take(lines, maxLines), "\n"), part, maxChars);
    }
  }

  lemma ClipKeeps(text: string, part: string, n: nat)
    requires part <= text && |part| <= n && (part == "" || part[|part| - 1] != '\n')
    ensures part <= Clip(text, n)
  {}

  /** Without carriage returns, joining the lines gives the trimmed output back. */
  lemma WholeIsTrimmed(content: string)
    requires Trimmed(content) != "" && '\r' !in content
    ensures Whole(content) == Trimmed(content)
    ensures Lines(Trimmed(content)) == Split(Trimmed(content), '\n')
  {
    var s := Trimmed(content);
    var pieces := Split(s, '\n');
    var n := |pieces| - 1;
    JoinSplit(s, '\n');
    LinesAreLines(s);
    assert pieces == pieces[..n] + [pieces[n]];
    JoinedLength(pieces[..n], pieces[n]);
    assert '\r' !in s;
    forall i | 0 <= i < n
      ensures StripReturn(pieces[i]) == pieces[i]
    {
      PieceChars(s, i);
    }
    assert StripReturns(pieces[..n]) == pieces[..n];
  }

  lemma {:induction false} PieceChars(s: string, i: nat)
    requires i < |Split(s, '\n')|
    ensures forall c | c in Split(s, '\n')[i] :: c in s
  {
    if s != "" {
      var rest := Split(s[1..], '\n');
      if s[0] == '\n' {
        if i > 0 {
          PieceChars(s[1..], i - 1);
        }
      } else {
        PieceChars(s[1..], i);
      }
    }
  }

  predicate EndsInBreak(text: string) {
    text != "" && text[|text| - 1] == '\n'
  }

  /** The last line is the notice, and the limits cut the output exactly before it: the line limit falls
      there, or the character limit does, or nothing stands before the notice and no character may. */
  predicate ReadsAsPreview(lines: seq<string>, maxLines: nat, maxChars: nat) {
    lines != []
    && var n := |lines| - 1;
    var before := Join(lines[..n], "\n");
    && lines[n] == NOTICE && (n > 0 ==> before != "")
    && (|| (maxLines == n && |before| <= maxChars && !(|before| == maxChars && EndsInBreak(before)))
        || (maxLines > n > 0 && (maxChars == |before| + 1 || (maxChars == |before| && !EndsInBreak(before))))
        || (maxLines > n == 0 && maxChars == 0))
  }

  lemma ShorterJoin(lines: seq<string>, m: nat)
    requires m < |lines| && Join(lines, "\n") != ""
    ensures |Join(lines[..m], "\n")| < |Join(lines, "\n")|
  {
    if m > 0 {
      JoinPrefix(lines, m);
    }
  }

  /** All lines are shown, and the last one is cut off. */
  lemma ClipBeforeLast(before: string, last: string, maxChars: nat)
    requires last != "" && '\n' !in last && |before + "\n" + last| > maxChars
    ensures Clip(before + "\n" + last, maxChars) == before
       <==> maxChars == |before| + 1 || (maxChars == |before| && !EndsInBreak(before))
  {
    var text := before + "\n" + last;
    assert maxChars <= |before| ==> text[..maxChars] == before[..maxChars];
    assert text[..|before| + 1] == before + "\n";
    if maxChars > |before| + 1 {
      assert text[maxChars - 1] == last[maxChars - |before| - 2];
    }
  }

  lemma ClipWhole(text: string, maxChars: nat)
    ensures Clip(text, maxChars) == text <==> |text| <= maxChars && !(|text| == maxChars && EndsInBreak(text))
  {}

  /** When the lines do not fit, what is kept is all that stands before a final notice exactly when the
      limits fall there. */
  lemma KeptBeforeNotice(lines: seq<string>, maxLines: nat, maxChars: nat)
    requires AreLines(lines) && !LinesFit(lines, maxLines, maxChars)
    ensures var n := |lines| - 1;
      ReadsAsPreview(lines, maxLines, maxChars)
      <==> && lines[n] == NOTICE && (n > 0 ==> Join(lines[..n], "\n") != "")
           && KeptOf(lines, maxLines, maxChars) == Join(lines[..n], "\n")
  {
    var n := |lines| - 1;
    var before := Join(lines[..n], "\n");
    if lines[n] == NOTICE && (n > 0 ==> before != "") {
      NoticeShape();
      assert lines == lines[..n] + [lines[n]];
      JoinedLength(lines[..n], lines[n]);
      if maxLines > n {
        if n > 0 {
          ClipBeforeLast(before, NOTICE, maxChars);
        } else {
          assert lines[..0] == [];
        }
      } else {
        assert maxLines < n ==> lines[..n][..maxLines] == lines[..maxLines];
        if maxLines < n {
          ShorterJoin(lines[..n], maxLines);
          ClipShortens(Join(lines[..maxLines], "\n"), maxChars);
        } else {
          ClipWhole(before, maxChars);
        }
      }
    }
  }

  /** For any output: the preview is the lines joined again exactly when they fit both limits, or when
      the last of them is the notice where the limits cut them. */
  lemma WholeExactly(content: string, maxLines: nat, maxChars: nat)
    ensures Preview(content, maxLines, maxChars) == Whole(content)
       <==> Fits(content, maxLines, maxChars) || ReadsAsPreview(Lines(Trimmed(content)), maxLines, maxChars)
  {
    if Trimmed(content) == "" {
      EmptyHasNoLines();
      return;
    }
    var lines := Lines(Trimmed(content));
    LinesAreLines(Trimmed(content));
    if !Fits(content, maxLines, maxChars) {
      SplitLast(lines, Kept(content, maxLines, maxChars));
      KeptBeforeNotice(lines, maxLines, maxChars);
    }
  }

  /** Without carriage returns, that is the trimmed output itself. */
  lemma UnchangedExactly(content: string, maxLines: nat, maxChars: nat)
    requires '\r' !in content
    ensures Preview(content, maxLines, maxChars) == Trimmed(content)
       <==> Fits(content, maxLines, maxChars) || ReadsAsPreview(Split(Trimmed(content), '\n'), maxLines, maxChars)
  {
    WholeExactly(content, maxLines, maxChars);
    if Trimmed(content) == "" {
      EmptyHasNoLines();
    } else {
      WholeIsTrimmed(content);
    }
  }

  lemma NoticeShape()
    ensures NOTICE != "" && '\n' !in NOTICE && '\r' !in NOTICE
  {
    assert forall c | c in NOTICE :: c != '\n' && c != '\r';
  }

  /** Lines that join to a kept part and the notice. */
  lemma SplitLast(lines: seq<string>, kept: string)
    requires lines != [] && forall i | 0 <= i < |lines| :: '\n' !in lines[i]
    ensures var n := |lines| - 1;
      WithNotice(kept) == Join(lines, "\n")
      <==> lines[n] == NOTICE && kept == Join(lines[..n], "\n") && (n > 0 ==> kept != "")
  {
    var n := |lines| - 1;
    NoticeShape();
    JoinWithLast(lines, kept, NOTICE);
  }

  lemma JoinWithLast(lines: seq<string>, kept: string, last: string)
    requires lines != [] && forall i | 0 <= i < |lines| :: '\n' !in lines[i]
    requires '\n' !in last
    ensures var n := |lines| - 1;
      (if kept == "" then "" else kept + "\n") + last == Join(lines, "\n")
      <==> lines[n] == last && kept == Join(lines[..n], "\n") && (n > 0 ==> kept != "")
  {
    var n := |lines| - 1;
    assert lines == lines[..n] + [lines[n]];
    JoinedLength(lines[..n], lines[n]);
    if n == 0 {
      assert lines[..n] == [];
    }
    if (if kept == "" then "" else kept + "\n") + last == Join(lines, "\n") {
      SplitJoin(lines, '\n');
      SplitKeptAndLast(kept, last);
    }
  }

  lemma SplitWithLast(kept: string, last: string)
    requires '\n' !in last
    ensures Split(kept + "\n" + last, '\n') == Split(kept, '\n') + [last]
  {
    var inner := Split(kept, '\n');
    JoinSplit(kept, '\n');
    JoinSnoc(inner, last, "\n");
    SplitJoin(inner + [last], '\n');
  }

  lemma SplitKeptAndLast(kept: string, last: string)
    requires '\n' !in last
    ensures var lines := Split((if kept == "" then "" else kept + "\n") + last, '\n');
      var n := |lines| - 1;
      lines[n] == last && Join(lines[..n], "\n") == kept && (kept == "" ==> n == 0)
  {
    if kept == "" {
      SplitNone(last, '\n');
      assert "" + last == last && [last][..0] == [];
    } else {
      SplitWithLast(kept, last);
      JoinSplit(kept, '\n');
      assert (Split(kept, '\n') + [last])[..|Split(kept, '\n')|] == Split(kept, '\n');
    }
  }

  lemma TwoLines(line: string)
    requires line != "" && '\n' !in line && '\r' !in line
    ensures Trimmed("a\n" + line) == "a\n" + line && '\r' !in "a\n" + line
    ensures Lines("a\n" + line) == ["a", line]
  {
    var s := "a\n" + line;
    assert s[|s| - 1] == line[|line| - 1];
    SplitNone(line, '\n');
    assert s == "a" + ['\n'] + line;
    SplitAppend("a", line, '\n');
    WholeIsTrimmed(s);
  }

  /** So fitting is not necessary: this output has a line too many, and is returned as it is. */
  lemma NoticeInOutput()
    ensures !Fits("a\n" + NOTICE, 1, 100)
    ensures Preview("a\n" + NOTICE, 1, 100) == Trimmed("a\n" + NOTICE)
  {
    NoticeShape();
    TwoLines(NOTICE);
    assert Take(["a", NOTICE], 1) == ["a"] && ["a", NOTICE][..1] == ["a"];
    UnchangedExactly("a\n" + NOTICE, 1, 100);
  }
}
