/** What `open` and `verify` make of any audit log file, well-formed or not. */
module AuditReading {
  import opened Wrappers
  import opened Text
  import opened Sequences
  import opened AuditChain
  import opened AuditLog

  /** The lines that are not blank. */
  function Texts(lines: seq<string>): seq<string> {
    if lines == [] then [] else (if Trim(lines[0]) == "" then [] else [lines[0]]) + Texts(lines[1..])
  }

  // ---- Which fault is reported ----

  /** `good` are the events of the first texts, and they continue the chain. */
  ghost predicate GoodUpTo<T>(texts: seq<string>, good: seq<Entry<T>>, before: seq<Entry<T>>, codec: Codec<T>) {
    && |good| <= |texts| && (forall i | 0 <= i < |good| :: codec.parse(texts[i]) == Some(good[i]))
    && Chain(before + good, codec)
  }

  /** The fault of a text that follows a chain: it does not parse; or its number or the hash before it is
      not the next one; or its own hash is not its digest. */
  ghost predicate IsFault<T>(error: VerifyError, text: string, chain: seq<Entry<T>>, codec: Codec<T>) {
    match codec.parse(text)
    case None => error == Malformed
    case Some(e) =>
      if e.seqNo != Saturated(|chain|) || e.previousHash != LastHash(chain) then error == Discontinuity(e.seqNo)
      else e.entryHash != Digest(e, codec) && error == HashMismatch(Saturated(|chain|))
  }

  lemma GoodLater<T>(line: string, e: Entry<T>, texts: seq<string>, later: seq<Entry<T>>, before: seq<Entry<T>>,
                     codec: Codec<T>)
    requires codec.parse(line) == Some(e) && GoodUpTo(texts, later, before + [e], codec)
    ensures GoodUpTo([line] + texts, [e] + later, before, codec)
    ensures before + ([e] + later) == (before + [e]) + later
  {
    Regroup(before, [e], later);
    forall i | 0 <= i < |[e] + later|
      ensures codec.parse(([line] + texts)[i]) == Some(([e] + later)[i])
    {
      if i > 0 {
        assert codec.parse(texts[i - 1]) == Some(later[i - 1]);
      }
    }
  }

  /** The first text is at fault. */
  lemma FaultFirst<T>(line: string, before: seq<Entry<T>>, rest: seq<string>, codec: Codec<T>)
    requires Chain(before, codec) && Trim(line) != ""
    requires codec.parse(line).Some? ==> !Linked(before + [codec.parse(line).value], |before|, codec)
    ensures VerifyLines([line] + rest, Saturated(|before|), LastHash(before), codec).Failure?
    ensures IsFault(VerifyLines([line] + rest, Saturated(|before|), LastHash(before), codec).error, line, before, codec)
  {
    if codec.parse(line).Some? {
      LinkedLast(before, codec.parse(line).value, codec);
    }
  }

  /** The first text is not at fault. */
  lemma FaultAfter<T>(line: string, before: seq<Entry<T>>, rest: seq<string>, codec: Codec<T>)
    requires Chain(before, codec) && Trim(line) != "" && codec.parse(line).Some?
    requires Linked(before + [codec.parse(line).value], |before|, codec)
    ensures var longer := before + [codec.parse(line).value];
      && Chain(longer, codec)
      && VerifyLines([line] + rest, Saturated(|before|), LastHash(before), codec)
         == VerifyLines(rest, Saturated(|longer|), LastHash(longer), codec)
  {
    var e := codec.parse(line).value;
    LinkedLast(before, e, codec);
    ChainSnoc(before, e, codec);
    assert ([line] + rest)[1..] == rest;
  }

  /** When `verify` fails, everything before some line is a chain, and the error is the fault of that line:
      the first fault of the file is the one reported. */
  lemma {:induction false} FirstFault<T>(lines: seq<string>, before: seq<Entry<T>>, codec: Codec<T>)
    returns (good: seq<Entry<T>>)
    requires Chain(before, codec)
    requires VerifyLines(lines, Saturated(|before|), LastHash(before), codec).Failure?
    ensures |good| < |Texts(lines)| && GoodUpTo(Texts(lines), good, before, codec)
    ensures IsFault(VerifyLines(lines, Saturated(|before|), LastHash(before), codec).error,
                    Texts(lines)[|good|], before + good, codec)
  {
    var line, rest := lines[0], lines[1..];
    assert lines == [line] + rest;
    if Trim(line) == "" {
      good := FirstFault(rest, before, codec);
      assert [] + Texts(rest) == Texts(rest);
    } else if codec.parse(line).Some? && Linked(before + [codec.parse(line).value], |before|, codec) {
      var e := codec.parse(line).value;
      FaultAfter(line, before, rest, codec);
      var later := FirstFault(rest, before + [e], codec);
      GoodLater(line, e, Texts(rest), later, before, codec);
      good := [e] + later;
      assert Texts(lines)[|good|] == Texts(rest)[|later|];
    } else {
      FaultFirst(line, before, rest, codec);
      good := [];
      assert before + [] == before;
    }
  }

  // ---- What is recovered ----

  function PastAll<T>(memory: Memory, entries: seq<Entry<T>>): Memory
    decreases |entries|
  {
    if entries == [] then memory else PastAll(memory.Past(entries[0]), entries[1..])
  }

  lemma {:induction false} PastAllSnoc<T>(memory: Memory, entries: seq<Entry<T>>, e: Entry<T>)
    ensures PastAll(memory, entries + [e]) == PastAll(memory, entries).Past(e)
    decreases |entries|
  {
    if entries == [] {
      assert [] + [e] == [e] && [e][1..] == [];
    } else {
      assert (entries + [e])[0] == entries[0] && (entries + [e])[1..] == entries[1..] + [e];
      PastAllSnoc(memory.Past(entries[0]), entries[1..], e);
    }
  }

  lemma {:induction false} OpenIsPastAll<T>(lines: seq<string>, memory: Memory, codec: Codec<T>)
    ensures OpenLines(lines, memory, codec)
         == if ParseLines(lines, codec).None? then None else Some(PastAll(memory, ParseLines(lines, codec).value))
  {
    if lines != [] {
      if Trim(lines[0]) == "" {
        OpenIsPastAll(lines[1..], memory, codec);
      } else if codec.parse(lines[0]).Some? {
        var e := codec.parse(lines[0]).value;
        OpenIsPastAll(lines[1..], memory.Past(e), codec);
        if ParseLines(lines[1..], codec).Some? {
          assert ([e] + ParseLines(lines[1..], codec).value)[1..] == ParseLines(lines[1..], codec).value;
        }
      }
    }
  }

  /** Event `i` has the greatest number, which no earlier one has, unless it is the greatest there is. */
  ghost predicate IsGreatest<T>(entries: seq<Entry<T>>, i: nat) {
    && i < |entries| && (forall j | 0 <= j < |entries| :: entries[j].seqNo <= entries[i].seqNo)
    && (entries[i].seqNo < U64_MAX ==> forall j | 0 <= j < i :: entries[j].seqNo < entries[i].seqNo)
  }

  ghost predicate Recalls<T>(memory: Memory, entries: seq<Entry<T>>) {
    if entries == [] then memory == Memory(0, "")
    else exists i: nat | IsGreatest(entries, i) ::
      memory == Memory(Saturated(entries[i].seqNo + 1), entries[i].entryHash)
  }

  lemma RecallsNew<T>(memory: Memory, init: seq<Entry<T>>, e: Entry<T>)
    requires Recalls(memory, init) && memory.sequence <= e.seqNo <= U64_MAX
    requires forall i | 0 <= i < |init| :: init[i].seqNo <= U64_MAX
    ensures Recalls(memory.Past(e), init + [e])
  {
    var all, n := init + [e], |init|;
    if init != [] {
      var i: nat :| IsGreatest(init, i) && memory == Memory(Saturated(init[i].seqNo + 1), init[i].entryHash);
      forall j | 0 <= j < n
        ensures all[j].seqNo <= e.seqNo && (e.seqNo < U64_MAX ==> all[j].seqNo < e.seqNo)
      {
        assert all[j] == init[j] && init[j].seqNo <= init[i].seqNo;
      }
    }
    assert IsGreatest(all, n);
  }

  lemma RecallsOld<T>(memory: Memory, init: seq<Entry<T>>, e: Entry<T>)
    requires Recalls(memory, init) && e.seqNo < memory.sequence
    ensures Recalls(memory.Past(e), init + [e])
  {
    var all := init + [e];
    var i: nat :| IsGreatest(init, i) && memory == Memory(Saturated(init[i].seqNo + 1), init[i].entryHash);
    forall j | 0 <= j < |all|
      ensures all[j].seqNo <= init[i].seqNo
    {
      assert j < |init| ==> all[j] == init[j];
    }
    assert forall j | 0 <= j < i :: all[j] == init[j];
    assert all[i] == init[i] && IsGreatest(all, i);
  }

  lemma {:induction false} PastAllRecalls<T>(entries: seq<Entry<T>>)
    requires forall i | 0 <= i < |entries| :: entries[i].seqNo <= U64_MAX
    ensures Recalls(PastAll(Memory(0, ""), entries), entries)
  {
    if entries != [] {
      var n := |entries| - 1;
      var init, e := entries[..n], entries[n];
      assert entries == init + [e];
      PastAllRecalls(init);
      PastAllSnoc(Memory(0, ""), init, e);
      var memory := PastAll(Memory(0, ""), init);
      if e.seqNo >= memory.sequence {
        RecallsNew(memory, init, e);
      } else {
        RecallsOld(memory, init, e);
      }
    }
  }

  /** `open` succeeds exactly when every line parses. It then continues after the greatest number in the
      file, whatever the order, with the hash of the event that has it. */
  lemma OpenExactly<T>(lines: seq<string>, codec: Codec<T>)
    requires ParseLines(lines, codec).Some? ==>
      forall i | 0 <= i < |ParseLines(lines, codec).value| :: ParseLines(lines, codec).value[i].seqNo <= U64_MAX
    ensures OpenLines(lines, Memory(0, ""), codec).Some? <==> ParseLines(lines, codec).Some?
    ensures ParseLines(lines, codec).Some? ==>
      Recalls(OpenLines(lines, Memory(0, ""), codec).value, ParseLines(lines, codec).value)
  {
    OpenIsPastAll(lines, Memory(0, ""), codec);
    if ParseLines(lines, codec).Some? {
      PastAllRecalls(ParseLines(lines, codec).value);
    }
  }
}
