/** Retrying a streamed provider request until it has produced output. */
module ProviderRetry {
  import opened Sequences

  const RETRYABLE: set<int> := {408, 409, 429, 500, 502, 503, 504}
  const MAX_RETRIES: nat := 2
  const INITIAL_BACKOFF_MS: real := 200.0
  const MAX_BACKOFF_MS: real := 2000.0

  /** How a response body ends: with the payloads of the final flush, or with an exception. */
  datatype Ending<+X> = Finished(rest: seq<string>) | Broken(error: X)

  /** What one request meets. `batches` are the payloads complete after each chunk of bytes. */
  datatype Attempt<+X> =
    | NoResponse(error: X)
    | Answered(status: int, batches: seq<seq<string>>, ending: Ending<X>)

  /** The local variable that first holds the request body and then each payload. */
  datatype Payload<+B> = Body(body: B) | Event(text: string)

  datatype Outcome<+X> = Done | StatusError(status: int) | Raised(error: X) | Exhausted

  // ---- What an attempt means ----

  /** No response; a status that asks for another attempt; or a successful one whose body broke before
      any payload was complete. */
  ghost predicate FailsQuietly<X>(a: Attempt<X>) {
    match a
    case NoResponse(_) => true
    case Answered(status, batches, ending) =>
      || status in {408, 409, 429, 500, 502, 503, 504}
      || (200 <= status < 300 && ending.Broken? && forall i | 0 <= i < |batches| :: batches[i] == [])
  }

  /** The payloads that the body of a successful response holds. */
  function Payloads<X>(a: Attempt<X>): seq<string> {
    if a.NoResponse? || !(200 <= a.status < 300) then []
    else Flatten(a.batches) + (if a.ending.Finished? then a.ending.rest else [])
  }

  /** What the caller gets from the last attempt: its payloads, and how it ended. */
  ghost predicate Decided<X>(a: Attempt<X>, yielded: seq<string>, result: Outcome<X>) {
    && yielded == Payloads(a)
    && match a
       case NoResponse(error) => result == Raised(error)
       case Answered(status, _, ending) =>
         if !(200 <= status < 300) then result == StatusError(status)
         else if ending.Broken? then result == Raised(ending.error)
         else result == Done
  }

  /** Attempt `last` is the one that decides: all before it failed quietly, and it did not, or was the
      third. */
  ghost predicate Decides<X>(attempts: nat -> Attempt<X>, last: nat) {
    && last <= 2 && (forall i: nat | i < last :: FailsQuietly(attempts(i)))
    && (last == 2 || !FailsQuietly(attempts(last)))
  }

  lemma {:induction false} NothingFlattened<T>(batches: seq<seq<T>>)
    ensures Flatten(batches) == [] <==> forall i | 0 <= i < |batches| :: batches[i] == []
  {
    if batches != [] {
      var n := |batches| - 1;
      NothingFlattened(batches[..n]);
      assert forall i | 0 <= i < n :: batches[i] == batches[..n][i];
    }
  }

  /** The answers, one by one. */
  lemma AnswerMeans<X>(a: Attempt<X>)
    requires a.Answered?
    ensures a.status in RETRYABLE ==> FailsQuietly(a) && Decided(a, [], StatusError(a.status))
    ensures a.status !in RETRYABLE && !(200 <= a.status < 300) ==>
      !FailsQuietly(a) && Decided(a, [], StatusError(a.status))
    ensures 200 <= a.status < 300 && a.ending.Finished? ==>
      !FailsQuietly(a) && Decided(a, Flatten(a.batches) + a.ending.rest, Done)
    ensures 200 <= a.status < 300 && a.ending.Broken? ==>
      (FailsQuietly(a) <==> Flatten(a.batches) == []) && Decided(a, Flatten(a.batches), Raised(a.ending.error))
  {
    NothingFlattened(a.batches);
    assert Flatten(a.batches) + [] == Flatten(a.batches);
  }

  // ---- The code ----

  /** `_iter_sse`: the bodies sent, the payloads yielded, the pauses, and how it ended. A next request
      is sent exactly while there were fewer than three and all of them failed quietly; the last one
      decides. */
  method IterSse<B, X>(body: B, attempts: nat -> Attempt<X>)
    returns (sent: seq<Payload<B>>, yielded: seq<string>, waits: seq<real>, result: Outcome<X>)
    ensures 1 <= |sent| <= 3 && forall i | 0 <= i < |sent| :: sent[i] == Body(body)
    ensures |sent| > 1 <==> FailsQuietly(attempts(0))
    ensures |sent| > 2 <==> FailsQuietly(attempts(0)) && FailsQuietly(attempts(1))
    ensures Decides(attempts, |sent| - 1) && Decided(attempts(|sent| - 1), yielded, result)
    ensures |waits| == |sent| - 1 && forall i | 0 <= i < |waits| :: waits[i] == if i == 0 then 0.2 else 0.4
  {
    var payload: Payload<B> := Body(body);
    var backoffMs := INITIAL_BACKOFF_MS;
    var emitted := false;
    sent, yielded, waits := [], [], [];
    for attempt := 0 to MAX_RETRIES + 1
      invariant attempt <= MAX_RETRIES && forall j: nat | j < attempt :: FailsQuietly(attempts(j))
      invariant !emitted && payload == Body(body) && yielded == []
      invariant |sent| == attempt && (forall i | 0 <= i < |sent| :: sent[i] == Body(body))
      invariant |waits| == attempt && (forall i | 0 <= i < attempt :: waits[i] == if i == 0 then 0.2 else 0.4)
      invariant backoffMs == if attempt == 0 then 200.0 else if attempt == 1 then 400.0 else 800.0
    {
      sent := sent + [payload];
      var answer := attempts(attempt);
      if answer.Answered? {
        AnswerMeans(answer);
        if answer.status in RETRYABLE {
          if attempt == MAX_RETRIES {
            return sent, yielded, waits, StatusError(answer.status);
          }
        } else if !(200 <= answer.status < 300) {
          return sent, yielded, waits, StatusError(answer.status);
        } else {
          payload, emitted, yielded := Emit(payload, answer.batches);
          if answer.ending.Finished? {
            return sent, yielded + answer.ending.rest, waits, Done;
          }
        }
      }
      if emitted || attempt == MAX_RETRIES {
        return sent, yielded, waits, Raised(if answer.NoResponse? then answer.error else answer.ending.error);
      }
      waits := waits + [(if backoffMs <= MAX_BACKOFF_MS then backoffMs else MAX_BACKOFF_MS) / 1000.0];
      backoffMs := backoffMs * 2.0;
    }
    assert false; // the loop never runs out, so the error after it is never raised
    result := Exhausted;
  }

  /** The emission loops, which assign each payload to the variable that held the request body. */
  method Emit<B>(before: Payload<B>, batches: seq<seq<string>>)
    returns (payload: Payload<B>, emitted: bool, yielded: seq<string>)
    ensures yielded == Flatten(batches)
    ensures emitted <==> yielded != []
    ensures !emitted ==> payload == before
  {
    payload, emitted, yielded := before, false, [];
    for i := 0 to |batches|
      invariant yielded == Flatten(batches[..i])
      invariant emitted <==> yielded != []
      invariant !emitted ==> payload == before
    {
      assert batches[..i + 1][..i] == batches[..i];
      ghost var earlier := yielded;
      for j := 0 to |batches[i]|
        invariant yielded == earlier + batches[i][..j]
        invariant emitted <==> yielded != []
        invariant !emitted ==> payload == before
      {
        payload := Event(batches[i][j]);
        emitted := true;
        yielded := yielded + [batches[i][j]];
      }
      assert batches[i][..|batches[i]|] == batches[i];
    }
    assert batches[..|batches|] == batches;
  }

  // ---- What retrying promises ----

  /** Exactly one attempt decides. */
  lemma OneDecides<X>(attempts: nat -> Attempt<X>) returns (last: nat)
    ensures Decides(attempts, last)
    ensures forall n: nat | Decides(attempts, n) :: n == last
  {
    last := if !FailsQuietly(attempts(0)) then 0 else if !FailsQuietly(attempts(1)) then 1 else 2;
  }

  lemma QuietHoldsNothing<X>(a: Attempt<X>)
    requires FailsQuietly(a)
    ensures Payloads(a) == []
  {
    if a.Answered? {
      NothingFlattened(a.batches);
    }
  }

  /** All payloads of the attempts, in order. */
  function AllPayloads<X>(attempts: nat -> Attempt<X>, n: nat): seq<string> {
    if n == 0 then [] else AllPayloads(attempts, n - 1) + Payloads(attempts(n - 1))
  }

  lemma {:induction false} NothingBefore<X>(attempts: nat -> Attempt<X>, n: nat)
    requires forall i: nat | i < n :: FailsQuietly(attempts(i))
    ensures AllPayloads(attempts, n) == []
  {
    if n > 0 {
      NothingBefore(attempts, n - 1);
      QuietHoldsNothing(attempts(n - 1));
    }
  }

  /** Everything that any attempt held comes from the one that decides, so that no output is doubled or
      interleaved. */
  lemma YieldsFromOneAttempt<X>(attempts: nat -> Attempt<X>, last: nat)
    requires Decides(attempts, last)
    ensures AllPayloads(attempts, last + 1) == Payloads(attempts(last))
  {
    NothingBefore(attempts, last);
  }

  /** A stream that breaks after it has yielded something is never repeated: the caller gets what
      there was, and the error. */
  lemma BrokenAfterOutput<X>(attempts: nat -> Attempt<X>, last: nat, i: nat, yielded: seq<string>, result: Outcome<X>)
    requires Decides(attempts, last) && Decided(attempts(last), yielded, result)
    requires i <= last && Payloads(attempts(i)) != []
    ensures i == last && yielded == Payloads(attempts(i))
    ensures attempts(i).ending.Broken? ==> result == Raised(attempts(i).ending.error)
  {
    if i < last {
      QuietHoldsNothing(attempts(i));
    }
  }

  ghost predicate Succeeds<X>(a: Attempt<X>) {
    a.Answered? && 200 <= a.status < 300 && a.ending.Finished?
  }

  /** The request succeeds exactly when one of the first three attempts does and those before it failed
      quietly. */
  lemma DoneExactly<X>(attempts: nat -> Attempt<X>, last: nat, yielded: seq<string>, result: Outcome<X>)
    requires Decides(attempts, last) && Decided(attempts(last), yielded, result)
    ensures result == Done
       <==> exists n: nat | n <= 2 :: Succeeds(attempts(n)) && forall i: nat | i < n :: FailsQuietly(attempts(i))
  {
    forall n: nat | n <= 2 && Succeeds(attempts(n)) && forall i: nat | i < n :: FailsQuietly(attempts(i))
      ensures n == last
    {
      assert !FailsQuietly(attempts(n));
      assert !(n < last) && !(last < n);
    }
  }
}
