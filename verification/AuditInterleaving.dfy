/** Concurrent appends: every interleaving of their lock, read, write, publish and unlock steps,
    with closing and reopening in between. */
module AuditInterleaving {
  import opened Wrappers
  import opened Text
  import opened Sequences
  import opened AuditChain
  import opened AuditLog

  type ThreadId = nat

  /** Where a thread stands in `append`. */
  datatype Pc<T> =
    | Idle
    | Called(fields: T)                      // about to lock the sequence
    | Numbered(fields: T, n: nat)            // holds the sequence lock; the counter is already ahead
    | Hashed(fields: T, event: Entry<T>)     // holds the hash lock too; the event is complete
    | Writing(fields: T, event: Entry<T>)    // holds the writer lock too
    | Written(fields: T, event: Entry<T>)    // the line is in the write buffer or beyond
    | Flushed(fields: T, event: Entry<T>)
    | Published(fields: T, n: nat)           // the new hash is in memory
    | WriterFreed(fields: T, n: nat)
    | HashFreed(fields: T, n: nat)

  /** One successful call: its argument and the number it returned. */
  datatype Return<T> = Return(fields: T, n: nat)

  /** `appended` is a history variable: the arguments in the order their hashes were published. */
  datatype State<T> = State(
    live: bool,
    sequence: nat,
    previousHash: string,
    file: string,
    buffer: string,
    sequenceLock: Option<ThreadId>,
    hashLock: Option<ThreadId>,
    writerLock: Option<ThreadId>,
    threads: map<ThreadId, Pc<T>>,
    returned: seq<Return<T>>,
    appended: seq<T>)
  {
    function At(t: ThreadId): Pc<T> {
      if t in threads then threads[t] else Idle
    }

    function Move(t: ThreadId, pc: Pc<T>): State<T> {
      this.(threads := threads[t := pc])
    }
  }

  datatype Step<T> =
    | Call(t: ThreadId, fields: T)
    | LockSequence(t: ThreadId)
    | LockHash(t: ThreadId)
    | LockWriter(t: ThreadId)
    | WriteLine(t: ThreadId)
    | Spill(t: ThreadId, count: nat)         // the buffer writes part of itself out
    | Flush(t: ThreadId)
    | Publish(t: ThreadId)
    | UnlockWriter(t: ThreadId)
    | UnlockHash(t: ThreadId)
    | UnlockSequence(t: ThreadId)
    | Close
    | Reopen

  ghost predicate Enabled<T>(s: State<T>, step: Step<T>, codec: Codec<T>) {
    match step
    case Call(t, _) => s.live && s.At(t).Idle?
    case LockSequence(t) => s.At(t).Called? && s.sequenceLock == None && s.sequence < U64_MAX
    case LockHash(t) => s.At(t).Numbered? && s.hashLock == None
    case LockWriter(t) => s.At(t).Hashed? && s.writerLock == None
    case WriteLine(t) => s.At(t).Writing?
    case Spill(t, count) => s.At(t).Written? && count <= |s.buffer|
    case Flush(t) => s.At(t).Written?
    case Publish(t) => s.At(t).Flushed?
    case UnlockWriter(t) => s.At(t).Published?
    case UnlockHash(t) => s.At(t).WriterFreed?
    case UnlockSequence(t) => s.At(t).HashFreed?
    case Close => s.live && forall t :: s.At(t).Idle?
    case Reopen => !s.live && OpenLines(Lines(s.file), Memory(0, ""), codec).Some?
  }

  ghost function Do<T>(s: State<T>, step: Step<T>, codec: Codec<T>): State<T>
    requires Enabled(s, step, codec)
  {
    match step
    case Call(t, fields) => s.Move(t, Called(fields))
    case LockSequence(t) =>
      s.Move(t, Numbered(s.At(t).fields, s.sequence)).(sequence := s.sequence + 1, sequenceLock := Some(t))
    case LockHash(t) =>
      var pc := s.At(t);
      var event := NextEntry(Log(pc.n, s.previousHash, s.file), pc.fields, codec);
      s.Move(t, Hashed(pc.fields, event)).(hashLock := Some(t))
    case LockWriter(t) => s.Move(t, Writing(s.At(t).fields, s.At(t).event)).(writerLock := Some(t))
    case WriteLine(t) =>
      s.Move(t, Written(s.At(t).fields, s.At(t).event)).(buffer := s.buffer + EntryLine(s.At(t).event, codec))
    case Spill(t, count) => s.(file := s.file + s.buffer[..count], buffer := s.buffer[count..])
    case Flush(t) =>
      s.Move(t, Flushed(s.At(t).fields, s.At(t).event)).(file := s.file + s.buffer, buffer := "")
    case Publish(t) =>
      var pc := s.At(t);
      s.Move(t, Published(pc.fields, pc.event.seqNo))
        .(previousHash := pc.event.entryHash, appended := s.appended + [pc.fields])
    case UnlockWriter(t) => s.Move(t, WriterFreed(s.At(t).fields, s.At(t).n)).(writerLock := None)
    case UnlockHash(t) => s.Move(t, HashFreed(s.At(t).fields, s.At(t).n)).(hashLock := None)
    case UnlockSequence(t) =>
      s.Move(t, Idle).(sequenceLock := None, returned := s.returned + [Return(s.At(t).fields, s.At(t).n)])
    case Close => s.(live := false)
    case Reopen =>
      var memory := OpenLines(Lines(s.file), Memory(0, ""), codec).value;
      s.(live := true, sequence := memory.sequence, previousHash := memory.previousHash)
  }

  /** A freshly opened log: nobody has called yet. */
  ghost predicate Initial<T>(s: State<T>, origin: Log) {
    s == State(true, origin.sequence, origin.previousHash, origin.file, "", None, None, None, map[], [], [])
  }

  ghost predicate IsStep<T>(before: State<T>, step: Step<T>, after: State<T>, codec: Codec<T>) {
    Enabled(before, step, codec) && after == Do(before, step, codec)
  }

  ghost predicate IsRun<T>(states: seq<State<T>>, steps: seq<Step<T>>, origin: Log, codec: Codec<T>) {
    && |states| == |steps| + 1
    && Initial(states[0], origin)
    && forall i | 0 <= i < |steps| :: IsStep(states[i], steps[i], states[i + 1], codec)
  }

  // ---- The invariant ----

  /** The log that appending one call after the other, in publication order, would have made. */
  function Sequential<T>(s: State<T>, origin: Log, codec: Codec<T>): Log {
    AppendedAll(origin, s.appended, codec)
  }

  ghost predicate InMemory<T>(s: State<T>, log: Log) {
    s.sequence == log.sequence && s.previousHash == log.previousHash
  }

  ghost predicate OnDisk<T>(s: State<T>, log: Log) {
    s.file == log.file && s.buffer == ""
  }

  ghost predicate Locks<T>(s: State<T>, hash: Option<ThreadId>, writer: Option<ThreadId>) {
    s.hashLock == hash && s.writerLock == writer
  }

  /** Before publication the owner of the sequence lock has advanced the counter only. */
  ghost predicate Ahead<T>(s: State<T>, log: Log) {
    s.sequence == log.sequence + 1 <= U64_MAX && s.previousHash == log.previousHash
  }

  ghost predicate OwnerInv<T>(s: State<T>, t: ThreadId, log: Log, codec: Codec<T>) {
    match s.At(t)
    case Idle => false
    case Called(_) => false
    case Numbered(fields, n) => Locks(s, None, None) && Ahead(s, log) && OnDisk(s, log) && n == log.sequence
    case Hashed(fields, event) =>
      Locks(s, Some(t), None) && Ahead(s, log) && OnDisk(s, log) && event == NextEntry(log, fields, codec)
    case Writing(fields, event) =>
      Locks(s, Some(t), Some(t)) && Ahead(s, log) && OnDisk(s, log) && event == NextEntry(log, fields, codec)
    case Written(fields, event) =>
      && Locks(s, Some(t), Some(t)) && Ahead(s, log) && event == NextEntry(log, fields, codec)
      && s.file + s.buffer == Appended(log, fields, codec).file
    case Flushed(fields, event) =>
      && Locks(s, Some(t), Some(t)) && Ahead(s, log) && event == NextEntry(log, fields, codec)
      && OnDisk(s, Appended(log, fields, codec))
    case Published(fields, n) => Locks(s, Some(t), Some(t)) && InMemory(s, log) && OnDisk(s, log)
    case WriterFreed(fields, n) => Locks(s, Some(t), None) && InMemory(s, log) && OnDisk(s, log)
    case HashFreed(fields, n) => Locks(s, None, None) && InMemory(s, log) && OnDisk(s, log)
  }

  /** Whether the call's hash is published but its number not yet returned. */
  predicate Returning<T>(pc: Pc<T>) {
    pc.Published? || pc.WriterFreed? || pc.HashFreed?
  }

  predicate Outside<T>(pc: Pc<T>) {
    pc.Idle? || pc.Called?
  }

  /** The calls returned so far got consecutive numbers in publication order. */
  ghost predicate ReturnsInOrder<T>(s: State<T>, origin: Log) {
    && |s.returned| <= |s.appended|
    && forall i | 0 <= i < |s.returned| :: s.returned[i] == Return(s.appended[i], origin.sequence + i)
  }

  ghost predicate Inv<T>(s: State<T>, origin: Log, codec: Codec<T>) {
    var log := Sequential(s, origin, codec);
    && ReturnsInOrder(s, origin)
    && log.sequence == origin.sequence + |s.appended| <= U64_MAX
    && match s.sequenceLock
       case None =>
         && (forall u :: Outside(s.At(u)))
         && (!s.live ==> forall u :: s.At(u).Idle?)
         && (s.live ==> InMemory(s, log))
         && Locks(s, None, None) && OnDisk(s, log) && |s.returned| == |s.appended|
       case Some(t) =>
         && s.live
         && (forall u | u != t :: Outside(s.At(u)))
         && OwnerInv(s, t, log, codec)
         && if Returning(s.At(t))
            then |s.returned| + 1 == |s.appended|
                 && s.At(t).fields == s.appended[|s.returned|] && s.At(t).n == origin.sequence + |s.returned|
            else |s.returned| == |s.appended|
  }

  // ---- Every step keeps it ----

  lemma AppendedAllSnoc<T>(origin: Log, all: seq<T>, fields: T, codec: Codec<T>)
    ensures AppendedAll(origin, all + [fields], codec) == Appended(AppendedAll(origin, all, codec), fields, codec)
  {
    assert (all + [fields])[..|all|] == all;
  }

  /** A thread past the sequence lock is the one that owns it. */
  lemma OwnerOf<T>(s: State<T>, t: ThreadId, origin: Log, codec: Codec<T>)
    requires Inv(s, origin, codec) && !Outside(s.At(t))
    ensures s.sequenceLock == Some(t) && OwnerInv(s, t, Sequential(s, origin, codec), codec)
  {}

  /** The call goes on: it has published, and will return, as much as before. */
  ghost predicate SameCall<T>(before: Pc<T>, after: Pc<T>) {
    && Returning(after) == Returning(before)
    && (Returning(before) ==> after.fields == before.fields && after.n == before.n)
  }

  /** A step of the owner that neither publishes nor returns: only its own part of the invariant is at stake. */
  lemma OwnerKeeps<T>(s: State<T>, s': State<T>, t: ThreadId, origin: Log, codec: Codec<T>)
    requires Inv(s, origin, codec) && s.sequenceLock == Some(t)
    requires s'.sequenceLock == s.sequenceLock && s'.live == s.live
    requires s'.returned == s.returned && s'.appended == s.appended
    requires forall u | u != t :: s'.At(u) == s.At(u)
    requires SameCall(s.At(t), s'.At(t)) && OwnerInv(s', t, Sequential(s, origin, codec), codec)
    ensures Inv(s', origin, codec)
  {}

  predicate LockStep<T>(step: Step<T>) {
    step.LockHash? || step.LockWriter? || step.UnlockWriter? || step.UnlockHash?
  }

  predicate WriteStep<T>(step: Step<T>) {
    step.WriteLine? || step.Spill? || step.Flush?
  }

  /** The steps of the owner between taking the sequence lock and returning, save publication. */
  predicate InsideStep<T>(step: Step<T>) {
    LockStep(step) || WriteStep(step)
  }

  lemma LockStepOwner<T>(s: State<T>, step: Step<T>, log: Log, codec: Codec<T>)
    requires LockStep(step) && Enabled(s, step, codec) && OwnerInv(s, step.t, log, codec)
    ensures OwnerInv(Do(s, step, codec), step.t, log, codec)
    ensures SameCall(s.At(step.t), Do(s, step, codec).At(step.t))
  {}

  lemma WriteStepOwner<T>(s: State<T>, step: Step<T>, log: Log, codec: Codec<T>)
    requires WriteStep(step) && Enabled(s, step, codec) && OwnerInv(s, step.t, log, codec)
    ensures OwnerInv(Do(s, step, codec), step.t, log, codec)
    ensures SameCall(s.At(step.t), Do(s, step, codec).At(step.t))
  {
    match step
    case Spill(_, count) => SpilledFile(s.file, s.buffer, count);
    case WriteLine(t) => WrittenFile(s.buffer, EntryLine(s.At(t).event, codec));
    case Flush(_) =>
  }

  lemma SpilledFile(file: string, buffer: string, count: nat)
    requires count <= |buffer|
    ensures (file + buffer[..count]) + buffer[count..] == file + buffer
  {
    Regroup(file, buffer[..count], buffer[count..]);
    assert buffer[..count] + buffer[count..] == buffer;
  }

  lemma WrittenFile(buffer: string, line: string)
    ensures buffer == "" ==> buffer + line == line
  {}

  lemma InsideStepFrame<T>(s: State<T>, step: Step<T>, codec: Codec<T>)
    requires InsideStep(step) && Enabled(s, step, codec)
    ensures var s' := Do(s, step, codec);
      && s'.sequenceLock == s.sequenceLock && s'.live == s.live
      && s'.returned == s.returned && s'.appended == s.appended
      && forall u | u != step.t :: s'.At(u) == s.At(u)
  {}

  lemma InsideStepKeeps<T>(s: State<T>, step: Step<T>, origin: Log, codec: Codec<T>)
    requires InsideStep(step) && Inv(s, origin, codec) && Enabled(s, step, codec)
    ensures Inv(Do(s, step, codec), origin, codec)
  {
    OwnerOf(s, step.t, origin, codec);
    if LockStep(step) {
      LockStepOwner(s, step, Sequential(s, origin, codec), codec);
    } else {
      WriteStepOwner(s, step, Sequential(s, origin, codec), codec);
    }
    InsideStepFrame(s, step, codec);
    OwnerKeeps(s, Do(s, step, codec), step.t, origin, codec);
  }

  lemma CallKeeps<T>(s: State<T>, t: ThreadId, fields: T, origin: Log, codec: Codec<T>)
    requires Inv(s, origin, codec) && Enabled(s, Call(t, fields), codec)
    ensures Inv(Do(s, Call(t, fields), codec), origin, codec)
  {
    var s' := Do(s, Call(t, fields), codec);
    assert forall u | u != t :: s'.At(u) == s.At(u);
    assert Outside(s.At(t)) && Outside(s'.At(t));
  }

  lemma LockSequenceKeeps<T>(s: State<T>, t: ThreadId, origin: Log, codec: Codec<T>)
    requires Inv(s, origin, codec) && Enabled(s, LockSequence(t), codec)
    ensures Inv(Do(s, LockSequence(t), codec), origin, codec)
  {
    var s' := Do(s, LockSequence(t), codec);
    assert forall u | u != t :: s'.At(u) == s.At(u);
  }

  lemma PublishOwner<T>(s: State<T>, t: ThreadId, log: Log, codec: Codec<T>)
    requires Enabled(s, Publish(t), codec) && OwnerInv(s, t, log, codec)
    ensures var s' := Do(s, Publish(t), codec);
      && OwnerInv(s', t, Appended(log, s.At(t).fields, codec), codec)
      && s'.At(t) == Published(s.At(t).fields, log.sequence)
  {}

  /** The owner publishes: one more event belongs to the log. */
  lemma PublicationKeeps<T>(s: State<T>, s': State<T>, t: ThreadId, origin: Log, codec: Codec<T>)
    requires Inv(s, origin, codec) && s.sequenceLock == Some(t) && s.At(t).Flushed?
    requires s'.sequenceLock == s.sequenceLock && s'.live == s.live && s'.returned == s.returned
    requires s'.appended == s.appended + [s.At(t).fields]
    requires forall u | u != t :: s'.At(u) == s.At(u)
    requires s'.At(t) == Published(s.At(t).fields, Sequential(s, origin, codec).sequence)
    requires Sequential(s', origin, codec).sequence == Sequential(s, origin, codec).sequence + 1 <= U64_MAX
    requires OwnerInv(s', t, Sequential(s', origin, codec), codec)
    ensures Inv(s', origin, codec)
  {}

  lemma PublishKeeps<T>(s: State<T>, t: ThreadId, origin: Log, codec: Codec<T>)
    requires Inv(s, origin, codec) && Enabled(s, Publish(t), codec)
    ensures Inv(Do(s, Publish(t), codec), origin, codec)
  {
    var s' := Do(s, Publish(t), codec);
    OwnerOf(s, t, origin, codec);
    PublishOwner(s, t, Sequential(s, origin, codec), codec);
    AppendedAllSnoc(origin, s.appended, s.At(t).fields, codec);
    assert forall u | u != t :: s'.At(u) == s.At(u);
    PublicationKeeps(s, s', t, origin, codec);
  }

  lemma UnlockSequenceKeeps<T>(s: State<T>, t: ThreadId, origin: Log, codec: Codec<T>)
    requires Inv(s, origin, codec) && Enabled(s, UnlockSequence(t), codec)
    ensures Inv(Do(s, UnlockSequence(t), codec), origin, codec)
  {
    var s' := Do(s, UnlockSequence(t), codec);
    OwnerOf(s, t, origin, codec);
    assert forall u | u != t :: s'.At(u) == s.At(u);
  }

  lemma CloseKeeps<T>(s: State<T>, origin: Log, codec: Codec<T>)
    requires Inv(s, origin, codec) && Enabled(s, Close, codec)
    ensures Inv(Do(s, Close, codec), origin, codec)
  {
    var s' := Do(s, Close, codec);
    assert forall u :: s'.At(u) == s.At(u);
  }

  lemma ReopenKeeps<T>(s: State<T>, origin: Log, codec: Codec<T>)
    requires Inv(s, origin, codec) && Enabled(s, Reopen, codec)
    requires OpenLines(Lines(s.file), Memory(0, ""), codec)
          == Some(Memory(Sequential(s, origin, codec).sequence, Sequential(s, origin, codec).previousHash))
    ensures Inv(Do(s, Reopen, codec), origin, codec)
  {
    var s' := Do(s, Reopen, codec);
    assert forall u :: s'.At(u) == s.At(u);
  }

  lemma StepKeepsInv<T>(s: State<T>, step: Step<T>, origin: Log, codec: Codec<T>)
    requires Inv(s, origin, codec) && Enabled(s, step, codec)
    requires step.Reopen? ==>
      var log := Sequential(s, origin, codec);
      OpenLines(Lines(s.file), Memory(0, ""), codec) == Some(Memory(log.sequence, log.previousHash))
    ensures Inv(Do(s, step, codec), origin, codec)
  {
    match step
    case Call(t, fields) => CallKeeps(s, t, fields, origin, codec);
    case LockSequence(t) => LockSequenceKeeps(s, t, origin, codec);
    case Publish(t) => PublishKeeps(s, t, origin, codec);
    case UnlockSequence(t) => UnlockSequenceKeeps(s, t, origin, codec);
    case Close => CloseKeeps(s, origin, codec);
    case Reopen => ReopenKeeps(s, origin, codec);
    case _ => InsideStepKeeps(s, step, origin, codec);
  }

  // ---- What holds in every run ----

  /** `entries` continue `before` with one event for each argument. */
  ghost predicate Continues<T>(entries: seq<Entry<T>>, before: seq<Entry<T>>, all: seq<T>) {
    && |entries| == |before| + |all|
    && before <= entries
    && forall i | 0 <= i < |all| :: entries[|before| + i].fields == all[i]
  }

  lemma ContinuesSnoc<T>(entries: seq<Entry<T>>, before: seq<Entry<T>>, all: seq<T>, e: Entry<T>)
    requires all != [] && Continues(entries, before, all[..|all| - 1]) && e.fields == all[|all| - 1]
    ensures Continues(entries + [e], before, all)
  {
    forall i | 0 <= i < |all|
      ensures (entries + [e])[|before| + i].fields == all[i]
    {
      if i < |all| - 1 {
        assert all[..|all| - 1][i] == all[i];
      }
    }
  }

  /** Appending one after the other keeps the file a chain, with one more event for each call. */
  lemma {:induction false} AppendedAllHolds<T(!new)>(origin: Log, before: seq<Entry<T>>, all: seq<T>, codec: Codec<T>)
    returns (entries: seq<Entry<T>>)
    requires Faithful(codec) && Holds(origin, before, codec) && |before| + |all| <= U64_MAX
    ensures Holds(AppendedAll(origin, all, codec), entries, codec) && Continues(entries, before, all)
  {
    if all == [] {
      entries := before;
    } else {
      var n := |all| - 1;
      var log := AppendedAll(origin, all[..n], codec);
      var shorter := AppendedAllHolds(origin, before, all[..n], codec);
      AppendHolds(log, shorter, all[n], codec);
      ContinuesSnoc(shorter, before, all, NextEntry(log, all[n], codec));
      entries := shorter + [NextEntry(log, all[n], codec)];
    }
  }

  lemma SequentialRecovers<T(!new)>(s: State<T>, origin: Log, before: seq<Entry<T>>, codec: Codec<T>)
    requires Faithful(codec) && Holds(origin, before, codec) && Inv(s, origin, codec)
    requires s.sequenceLock == None
    ensures var log := Sequential(s, origin, codec);
      OpenLines(Lines(s.file), Memory(0, ""), codec) == Some(Memory(log.sequence, log.previousHash))
  {
    var entries := AppendedAllHolds(origin, before, s.appended, codec);
    HeldIsRecovered(Sequential(s, origin, codec), entries, codec);
  }

  lemma {:induction false} RunKeepsInv<T(!new)>(states: seq<State<T>>, steps: seq<Step<T>>, origin: Log,
                                                before: seq<Entry<T>>, codec: Codec<T>)
    requires Faithful(codec) && Holds(origin, before, codec) && IsRun(states, steps, origin, codec)
    ensures Inv(states[|steps|], origin, codec)
    decreases |steps|
  {
    if steps != [] {
      var n := |steps| - 1;
      assert IsRun(states[..n + 1], steps[..n], origin, codec);
      RunKeepsInv(states[..n + 1], steps[..n], origin, before, codec);
      assert IsStep(states[n], steps[n], states[n + 1], codec);
      if steps[n].Reopen? {
        ClosedIsAtRest(states[n], origin, codec);
        SequentialRecovers(states[n], origin, before, codec);
      }
      StepKeepsInv(states[n], steps[n], origin, codec);
    }
  }

  lemma ClosedIsAtRest<T>(s: State<T>, origin: Log, codec: Codec<T>)
    requires Inv(s, origin, codec) && !s.live
    ensures s.sequenceLock == None
  {}

  /** Nobody is inside `append`. */
  ghost predicate AtRest<T>(s: State<T>) {
    forall t :: s.At(t).Idle?
  }

  /** In every run, at rest: the file is the chain that was there plus one event for each
      successful call, in the order of the numbers returned, which are distinct and consecutive;
      `verify` accepts it; memory holds its length and last hash; and the file is, byte for byte,
      what the same calls made one after the other would have written. */
  lemma RunsAreSequential<T(!new)>(states: seq<State<T>>, steps: seq<Step<T>>, origin: Log, before: seq<Entry<T>>,
                                   codec: Codec<T>)
    returns (entries: seq<Entry<T>>)
    requires Faithful(codec) && Holds(origin, before, codec) && IsRun(states, steps, origin, codec)
    requires AtRest(states[|steps|])
    ensures var s := states[|steps|];
      && s.file == AppendedAll(origin, s.appended, codec).file
      && ParseFile(s.file, codec) == Some(entries) && Chain(entries, codec) && Verifies(s.file, codec)
      && Continues(entries, before, s.appended)
      && |s.returned| == |s.appended|
      && NumberedFrom(entries, |before|, s.returned)
      && (s.live ==> s.sequence == |entries| && s.previousHash == LastHash(entries))
  {
    var s := states[|steps|];
    RunKeepsInv(states, steps, origin, before, codec);
    RestingLocks(s, origin, codec);
    entries := AppendedAllHolds(origin, before, s.appended, codec);
    VerifiesChains(s.file, codec);
    forall i | 0 <= i < |s.returned|
      ensures NumberedAt(entries[|before| + i], |before| + i, s.returned[i])
    {
      assert Linked(entries, |before| + i, codec);
    }
  }

  /** The event holds the argument of the call and the number it returned. */
  ghost predicate NumberedAt<T>(e: Entry<T>, n: nat, r: Return<T>) {
    e.seqNo == n && r == Return(e.fields, n)
  }

  /** From `start` on, the events are those of the returned calls, in order. */
  ghost predicate NumberedFrom<T>(entries: seq<Entry<T>>, start: nat, returned: seq<Return<T>>) {
    && |entries| == start + |returned|
    && forall i | 0 <= i < |returned| :: NumberedAt(entries[start + i], start + i, returned[i])
  }

  /** A log that started empty numbers its events from zero, and holds exactly those of the calls. */
  lemma NewLogRuns<T(!new)>(states: seq<State<T>>, steps: seq<Step<T>>, codec: Codec<T>)
    returns (entries: seq<Entry<T>>)
    requires Faithful(codec) && IsRun(states, steps, Log(0, "", ""), codec) && AtRest(states[|steps|])
    ensures var s := states[|steps|];
      && ParseFile(s.file, codec) == Some(entries) && Verifies(s.file, codec)
      && NumberedFrom(entries, 0, s.returned)
  {
    EmptyHolds(codec);
    var before: seq<Entry<T>> := [];
    entries := RunsAreSequential(states, steps, Log(0, "", ""), before, codec);
  }

  lemma RestingLocks<T>(s: State<T>, origin: Log, codec: Codec<T>)
    requires Inv(s, origin, codec) && AtRest(s)
    ensures s.sequenceLock == None
  {
    match s.sequenceLock
    case None =>
    case Some(t) => assert false;
  }

  /** The three locks never deadlock: while a call is pending, some step other than a new call
      can be taken. */
  lemma NoDeadlock<T>(s: State<T>, t: ThreadId, origin: Log, codec: Codec<T>) returns (step: Step<T>)
    requires Inv(s, origin, codec) && !s.At(t).Idle? && s.sequence < U64_MAX
    ensures Enabled(s, step, codec) && !step.Call? && !step.Close? && !step.Reopen?
  {
    if s.sequenceLock == None {
      step := LockSequence(t);
    } else {
      var owner := s.sequenceLock.value;
      step := match s.At(owner)
        case Numbered(_, _) => LockHash(owner)
        case Hashed(_, _) => LockWriter(owner)
        case Writing(_, _) => WriteLine(owner)
        case Written(_, _) => Flush(owner)
        case Flushed(_, _) => Publish(owner)
        case Published(_, _) => UnlockWriter(owner)
        case WriterFreed(_, _) => UnlockHash(owner)
        case HashFreed(_, _) => UnlockSequence(owner)
        case _ => LockSequence(t);
    }
  }
}
