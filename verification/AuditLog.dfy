/** The audit log file and the object that appends to it, one call at a time. */
module AuditLog {
  import opened Wrappers
  import opened Text
  import opened Sequences
  import opened AuditChain

  /** The in-memory pair and the file contents. */
  datatype Log = Log(sequence: nat, previousHash: string, file: string)

  // ---- Reading the file back ----

  /** The events on the nonblank lines, if all of them parse. */
  function ParseLines<T>(lines: seq<string>, codec: Codec<T>): Option<seq<Entry<T>>> {
    if lines == [] then Some([])
    else if Trim(lines[0]) == "" then ParseLines(lines[1..], codec)
    else
      match (codec.parse(lines[0]), ParseLines(lines[1..], codec))
      case (Some(e), Some(rest)) => Some([e] + rest)
      case _ => None
  }

  function ParseFile<T>(file: string, codec: Codec<T>): Option<seq<Entry<T>>> {
    ParseLines(Lines(file), codec)
  }

  datatype Memory = Memory(sequence: nat, previousHash: string)
  {
    /** An event whose number is not below the next one moves both fields on. */
    function Past<T>(e: Entry<T>): Memory {
      if e.seqNo >= sequence then Memory(if e.seqNo < U64_MAX then e.seqNo + 1 else U64_MAX, e.entryHash) else this
    }
  }

  /** `open`: the memory after the lines, from `memory` on; a malformed line stops it. */
  function OpenLines<T>(lines: seq<string>, memory: Memory, codec: Codec<T>): Option<Memory> {
    if lines == [] then Some(memory)
    else if Trim(lines[0]) == "" then OpenLines(lines[1..], memory, codec)
    else
      match codec.parse(lines[0])
      case None => None
      case Some(e) => OpenLines(lines[1..], memory.Past(e), codec)
  }

  datatype VerifyError = Malformed | Discontinuity(seqNo: nat) | HashMismatch(expected: nat)

  /** `verify`, from the `expected`-th event on; the first fault is reported. */
  function VerifyLines<T>(lines: seq<string>, expected: nat, previousHash: string,
                          codec: Codec<T>): Result<(), VerifyError> {
    if lines == [] then Success(())
    else if Trim(lines[0]) == "" then VerifyLines(lines[1..], expected, previousHash, codec)
    else
      match codec.parse(lines[0])
      case None => Failure(Malformed)
      case Some(e) =>
        if e.seqNo != expected || e.previousHash != previousHash then Failure(Discontinuity(e.seqNo))
        else if e.entryHash != Digest(e, codec) then Failure(HashMismatch(expected))
        else VerifyLines(lines[1..], if expected < U64_MAX then expected + 1 else U64_MAX, e.entryHash, codec)
  }

  // ---- Appending ----

  /** The event that an append on `log` writes. */
  function NextEntry<T>(log: Log, fields: T, codec: Codec<T>): Entry<T> {
    var draft := Entry(log.sequence, fields, log.previousHash, "");
    draft.(entryHash := Digest(draft, codec))
  }

  function EntryLine<T>(e: Entry<T>, codec: Codec<T>): string {
    codec.serialize(e) + "\n"
  }

  function Appended<T>(log: Log, fields: T, codec: Codec<T>): Log {
    var e := NextEntry(log, fields, codec);
    Log(log.sequence + 1, e.entryHash, log.file + EntryLine(e, codec))
  }

  function AppendedAll<T>(log: Log, all: seq<T>, codec: Codec<T>): Log {
    if all == [] then log
    else Appended(AppendedAll(log, all[..|all| - 1], codec), all[|all| - 1], codec)
  }

  // ---- What appending keeps ----

  /** Every line of the file is complete. */
  predicate EndsLine(file: string) {
    file == "" || file[|file| - 1] == '\n'
  }

  /** The file is the chain `entries`, and memory holds its length and its last hash. */
  ghost predicate Holds<T>(log: Log, entries: seq<Entry<T>>, codec: Codec<T>) {
    && EndsLine(log.file)
    && ParseFile(log.file, codec) == Some(entries)
    && Chain(entries, codec)
    && log.sequence == |entries| <= U64_MAX
    && log.previousHash == LastHash(entries)
  }

  /** A new, empty file is where every log starts. */
  lemma EmptyHolds<T>(codec: Codec<T>)
    ensures Holds(Log(0, "", ""), [], codec)
  {
    EmptyHasNoLines();
  }

  lemma LastPieceEmpty(file: string)
    requires EndsLine(file)
    ensures var pieces := Split(file, '\n'); pieces[|pieces| - 1] == ""
  {
    var pieces := Split(file, '\n');
    var n := |pieces| - 1;
    JoinSplit(file, '\n');
    assert pieces == pieces[..n] + [pieces[n]];
    if n > 0 {
      JoinSnoc(pieces[..n], pieces[n], "\n");
    }
  }

  lemma JoinOneMore(inner: seq<string>, line: string)
    ensures Join(inner + [line, ""], "\n") == Join(inner + [""], "\n") + line + "\n"
  {
    assert inner + [line, ""] == (inner + [line]) + [""];
    JoinSnoc(inner + [line], "", "\n");
    if inner == [] {
      assert inner + [line] == [line] && inner + [""] == [""];
    } else {
      JoinSnoc(inner, line, "\n");
      JoinSnoc(inner, "", "\n");
    }
  }

  lemma SplitAfterLine(file: string, line: string)
    requires EndsLine(file) && '\n' !in line
    ensures var pieces := Split(file, '\n');
      Split(file + line + "\n", '\n') == pieces[..|pieces| - 1] + [line, ""]
  {
    var pieces := Split(file, '\n');
    var n := |pieces| - 1;
    LastPieceEmpty(file);
    JoinSplit(file, '\n');
    var inner := pieces[..n];
    assert pieces == inner + [""];
    JoinOneMore(inner, line);
    SplitJoin(inner + [line, ""], '\n');
  }

  lemma LinesSnoc(file: string, line: string)
    requires EndsLine(file) && '\n' !in line && StripReturn(line) == line
    ensures Lines(file + line + "\n") == Lines(file) + [line]
  {
    var pieces := Split(file, '\n');
    var n := |pieces| - 1;
    LastPieceEmpty(file);
    SplitAfterLine(file, line);
    assert (pieces[..n] + [line, ""])[..n + 1] == pieces[..n] + [line];
    assert StripReturns(pieces[..n] + [line]) == StripReturns(pieces[..n]) + [line];
  }

  lemma {:induction false} ParseLinesAppend<T>(a: seq<string>, b: seq<string>, codec: Codec<T>)
    requires ParseLines(a, codec).Some? && ParseLines(b, codec).Some?
    ensures ParseLines(a + b, codec) == Some(ParseLines(a, codec).value + ParseLines(b, codec).value)
  {
    var y := ParseLines(b, codec).value;
    if a == [] {
      assert a + b == b && [] + y == y;
    } else {
      assert (a + b)[0] == a[0] && (a + b)[1..] == a[1..] + b;
      ParseLinesAppend(a[1..], b, codec);
      if Trim(a[0]) != "" {
        Regroup([codec.parse(a[0]).value], ParseLines(a[1..], codec).value, y);
      }
    }
  }

  lemma OneLineParses<T>(line: string, e: Entry<T>, codec: Codec<T>)
    requires Trim(line) != "" && codec.parse(line) == Some(e)
    ensures ParseLines([line], codec) == Some([e])
  {
    assert [line][1..] == [] && [e] + [] == [e];
  }

  lemma {:induction false} TrimKeepsBrace(s: string)
    requires s != "" && s[0] == '{' && !IsWhitespace(s[|s| - 1])
    ensures Trim(s) == s
  {}

  /** Appending to a file that holds a chain makes it hold the chain with one more event. */
  lemma AppendHolds<T(!new)>(log: Log, entries: seq<Entry<T>>, fields: T, codec: Codec<T>)
    requires Faithful(codec) && Holds(log, entries, codec) && log.sequence < U64_MAX
    ensures Holds(Appended(log, fields, codec), entries + [NextEntry(log, fields, codec)], codec)
  {
    var e := NextEntry(log, fields, codec);
    var line := codec.serialize(e);
    assert IsObjectLine(line) && codec.parse(line) == Some(e);
    TrimKeepsBrace(line);
    LinesSnoc(log.file, line);
    assert log.file + EntryLine(e, codec) == log.file + line + "\n";
    OneLineParses(line, e, codec);
    ParseLinesAppend(Lines(log.file), [line], codec);
    assert Unsigned(e) == Entry(log.sequence, fields, log.previousHash, "");
    ChainSnoc(entries, e, codec);
  }

  // ---- What verify and open make of it ----

  lemma LinkedLast<T>(before: seq<Entry<T>>, e: Entry<T>, codec: Codec<T>)
    ensures Linked(before + [e], |before|, codec)
       <==> e.seqNo == Saturated(|before|) && e.previousHash == LastHash(before) && e.entryHash == Digest(e, codec)
  {
    assert (before + [e])[..|before|] == before;
  }

  lemma ChainNeedsLink<T>(before: seq<Entry<T>>, e: Entry<T>, rest: seq<Entry<T>>, codec: Codec<T>)
    requires Chain(before + ([e] + rest), codec)
    ensures Linked(before + [e], |before|, codec)
  {
    var all, n := before + ([e] + rest), |before|;
    ChainPrefix(all, n + 1, codec);
    assert all[..n + 1] == before + [e];
  }

  /** `open` on a chain recovers its length and its last hash. */
  lemma {:induction false} OpenRecovers<T>(lines: seq<string>, before: seq<Entry<T>>, codec: Codec<T>)
    requires ParseLines(lines, codec).Some?
    requires Chain(before + ParseLines(lines, codec).value, codec)
    requires |before + ParseLines(lines, codec).value| <= U64_MAX
    ensures var all := before + ParseLines(lines, codec).value;
      OpenLines(lines, Memory(|before|, LastHash(before)), codec) == Some(Memory(|all|, LastHash(all)))
  {
    if lines == [] {
      assert before + [] == before;
    } else if Trim(lines[0]) == "" {
      OpenRecovers(lines[1..], before, codec);
    } else {
      var e, rest := codec.parse(lines[0]).value, ParseLines(lines[1..], codec).value;
      Regroup(before, [e], rest);
      ChainNeedsLink(before, e, rest, codec);
      LinkedLast(before, e, codec);
      OpenRecovers(lines[1..], before + [e], codec);
    }
  }

  lemma HeldIsRecovered<T>(log: Log, entries: seq<Entry<T>>, codec: Codec<T>)
    requires Holds(log, entries, codec)
    ensures OpenLines(Lines(log.file), Memory(0, ""), codec) == Some(Memory(log.sequence, log.previousHash))
  {
    assert [] + entries == entries;
    OpenRecovers(Lines(log.file), [], codec);
  }

  lemma ChainContinues<T>(before: seq<Entry<T>>, e: Entry<T>, rest: Option<seq<Entry<T>>>, codec: Codec<T>)
    ensures rest.Some? ==>
      (Chain(before + ([e] + rest.value), codec)
       <==> Linked(before + [e], |before|, codec) && Chain((before + [e]) + rest.value, codec))
  {
    if rest.Some? {
      assert before + ([e] + rest.value) == (before + [e]) + rest.value;
      if Chain(before + ([e] + rest.value), codec) {
        ChainNeedsLink(before, e, rest.value, codec);
      }
    }
  }

  /** `verify` accepts a file exactly when its lines parse and form a chain. */
  lemma {:induction false} VerifyIsChain<T>(lines: seq<string>, before: seq<Entry<T>>, codec: Codec<T>)
    requires Chain(before, codec)
    ensures VerifyLines(lines, Saturated(|before|), LastHash(before), codec).Success?
       <==> ParseLines(lines, codec).Some? && Chain(before + ParseLines(lines, codec).value, codec)
  {
    if lines == [] {
      assert before + [] == before;
    } else if Trim(lines[0]) == "" {
      VerifyIsChain(lines[1..], before, codec);
    } else if codec.parse(lines[0]).Some? {
      var e := codec.parse(lines[0]).value;
      LinkedLast(before, e, codec);
      if Linked(before + [e], |before|, codec) {
        ChainSnoc(before, e, codec);
        VerifyIsChain(lines[1..], before + [e], codec);
      }
      ChainContinues(before, e, ParseLines(lines[1..], codec), codec);
    }
  }

  ghost predicate Verifies<T>(file: string, codec: Codec<T>) {
    VerifyLines(Lines(file), 0, "", codec).Success?
  }

  lemma VerifiesChains<T>(file: string, codec: Codec<T>)
    ensures Verifies(file, codec) <==> ParseFile(file, codec).Some? && Chain(ParseFile(file, codec).value, codec)
  {
    VerifyIsChain(Lines(file), [], codec);
    if ParseFile(file, codec).Some? {
      assert [] + ParseFile(file, codec).value == ParseFile(file, codec).value;
    }
  }

  // ---- The code ----

  class AuditLog<T> {
    const codec: Codec<T>
    var sequence: nat
    var previousHash: string
    var file: string

    ghost function State(): Log
      reads this
    {
      Log(sequence, previousHash, file)
    }

    /** Attaches to a file; memory is recovered from it by `Open`. */
    constructor (codec: Codec<T>, file: string)
      ensures this.codec == codec && State() == Log(0, "", file)
    {
      this.codec := codec;
      this.file := file;
      sequence, previousHash := 0, "";
    }

    /** Recovers the next number and the last hash from the file; refuses a malformed line. */
    method Open() returns (ok: bool)
      modifies this
      ensures file == old(file)
      ensures OpenLines(Lines(file), Memory(0, ""), codec) == if ok then Some(Memory(sequence, previousHash)) else None
    {
      var lines := Lines(file);
      var memory := Memory(0, "");
      assert lines[0..] == lines;
      for i := 0 to |lines|
        invariant OpenLines(lines, Memory(0, ""), codec) == OpenLines(lines[i..], memory, codec)
      {
        assert lines[i..][1..] == lines[i + 1..];
        if Trim(lines[i]) == "" {
          continue;
        }
        var event := codec.parse(lines[i]);
        if event.None? {
          return false;
        }
        memory := memory.Past(event.value);
      }
      sequence, previousHash := memory.sequence, memory.previousHash;
      return true;
    }

    method Append(fields: T) returns (seqNo: nat)
      requires sequence < U64_MAX
      modifies this
      ensures State() == Appended(old(State()), fields, codec)
      ensures seqNo == old(sequence)
    {
      seqNo := sequence;
      sequence := sequence + 1;
      var event := Entry(seqNo, fields, previousHash, "");
      event := event.(entryHash := Hex(codec.sha256(Encode(previousHash) + Encode(codec.serialize(event)))));
      file := file + EntryLine(event, codec);
      previousHash := event.entryHash;
    }

    method Verify() returns (r: Result<(), VerifyError>)
      ensures r == VerifyLines(Lines(file), 0, "", codec)
      ensures r.Success? <==> ParseFile(file, codec).Some? && Chain(ParseFile(file, codec).value, codec)
    {
      VerifiesChains(file, codec);
      var lines := Lines(file);
      var expected: nat := 0;
      var last := "";
      assert lines[0..] == lines;
      for i := 0 to |lines|
        invariant VerifyLines(lines, 0, "", codec) == VerifyLines(lines[i..], expected, last, codec)
      {
        assert lines[i..][1..] == lines[i + 1..];
        if Trim(lines[i]) == "" {
          continue;
        }
        var event := codec.parse(lines[i]);
        if event.None? {
          return Failure(Malformed);
        }
        if event.value.seqNo != expected || event.value.previousHash != last {
          return Failure(Discontinuity(event.value.seqNo));
        }
        var supplied := event.value.entryHash;
        var unsigned := event.value.(entryHash := "");
        if supplied != Hex(codec.sha256(Encode(last) + Encode(codec.serialize(unsigned)))) {
          return Failure(HashMismatch(expected));
        }
        last := supplied;
        expected := if expected < U64_MAX then expected + 1 else U64_MAX;
      }
      return Success(());
    }
  }

  /** Tamper evidence for files: two nonempty files that `verify` accepts and that end in the same
      hash hold the same events, or the lemma returns a SHA-256 collision. */
  lemma FilesWithSameHash<T(!new)>(f: string, g: string, codec: Codec<T>) returns (x: seq<byte>, y: seq<byte>)
    requires Faithful(codec) && Verifies(f, codec) && Verifies(g, codec)
    requires ParseFile(f, codec) != Some([]) && ParseFile(g, codec) != Some([])
    requires ParseFile(f, codec).Some? && ParseFile(g, codec).Some?
    requires LastHash(ParseFile(f, codec).value) == LastHash(ParseFile(g, codec).value)
    ensures ParseFile(f, codec) == ParseFile(g, codec) || (x != y && codec.sha256(x) == codec.sha256(y))
  {
    VerifiesChains(f, codec);
    VerifiesChains(g, codec);
    x, y := TamperEvidence(ParseFile(f, codec).value, ParseFile(g, codec).value, codec);
  }
}
