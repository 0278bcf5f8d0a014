/** `run_upstream` of src/git.rs: run git against upstream, keep the tail of its stderr, and retry
    transient failures. What the child and the file system do in each attempt is chosen by the
    environment; the substring tables that judge the tail are two arbitrary predicates. */
module Retry {
  import opened Common

  const MAX_RETRIES: nat := 3
  const MAX_STDERR_BYTES: nat := 65536
  const READ_BUFFER: nat := 4096

  function Delay(attempt: nat): nat
    requires attempt < MAX_RETRIES
  {
    [1, 2, 4][attempt]
  }

  /** Seconds slept before attempt `k`: none before the first, then one, two and four more. */
  function SleptBefore(k: nat): (total: nat)
    requires k <= MAX_RETRIES
    ensures k <= 3 && total == [0, 1, 3, 7][k]
  {
    if k == 0 then 0 else SleptBefore(k - 1) + Delay(k - 1)
  }

  datatype Exit = Success | Code | Signalled

  /** One attempt: did emptying the staging directory, spawning, reading stderr, waiting, and
      emptying the staging directory after a failure each work; what arrived on stderr, read by
      read; and how the child ended. */
  datatype Attempt = Attempt(
    cleaned: bool, spawned: bool, chunks: seq<Bytes>, readOk: bool, waited: bool, exit: Exit, cleanedAfter: bool)

  datatype Classifier = Classifier(permanent: Bytes -> bool, transient: Bytes -> bool) {
    /** A permanent diagnostic wins, and an unrecognised one is permanent. */
    predicate Retryable(tail: Bytes) { !permanent(tail) && transient(tail) }
  }

  /** What came out of the pipe, read by read, in one piece. */
  function Flatten(chunks: seq<Bytes>): Bytes {
    if chunks == [] then [] else Flatten(chunks[..|chunks| - 1]) + chunks[|chunks| - 1]
  }

  /** The last `n` bytes, or all of them. */
  function LastBytes(s: Bytes, n: nat): Bytes {
    if |s| <= n then s else s[|s| - n..]
  }

  predicate ReachesExit(a: Attempt, staging: bool) {
    (staging ==> a.cleaned) && a.spawned && a.readOk && a.waited
  }

  predicate Succeeds(a: Attempt, staging: bool) { ReachesExit(a, staging) && a.exit.Success? }

  /** The failures that are retried: transient by the tail of stderr, with an exit code. */
  predicate Retries(a: Attempt, staging: bool, cl: Classifier) {
    && ReachesExit(a, staging) && a.exit.Code? && (staging ==> a.cleanedAfter)
    && cl.Retryable(LastBytes(Flatten(a.chunks), MAX_STDERR_BYTES))
  }

  /** `tail` is the end of `stream`, as much of it as 64 KiB hold. */
  predicate IsTail(stream: Bytes, tail: Bytes) {
    && |tail| == (if |stream| <= 65536 then |stream| else 65536)
    && stream[|stream| - |tail|..] == tail
  }

  lemma TailIsTail(stream: Bytes, tail: Bytes)
    ensures IsTail(stream, tail) <==> tail == LastBytes(stream, MAX_STDERR_BYTES)
  {
  }

  /** Joining the pieces loses, adds and reorders nothing. */
  lemma {:induction false} FlattenJoins(a: seq<Bytes>, b: seq<Bytes>, c: Bytes)
    ensures Flatten([]) == [] && Flatten([c]) == c
    ensures Flatten(a + b) == Flatten(a) + Flatten(b)
    decreases |b|
  {
    assert [c][..0] == [];
    if b == [] {
      assert a + b == a;
    } else {
      var k := |b| - 1;
      assert (a + b)[..|a| + k] == a + b[..k];
      FlattenJoins(a, b[..k], c);
    }
  }

  lemma TailOfTail(s: Bytes, chunk: Bytes, n: nat)
    ensures LastBytes(LastBytes(s, n) + chunk, n) == LastBytes(s + chunk, n)
  {
  }

  /** Reading in pieces and trimming as it goes keeps exactly the last bytes of the whole stream,
      however the stream was cut up, and never holds more than one read beyond the limit. */
  method DrainTail(chunks: seq<Bytes>) returns (tail: Bytes)
    requires forall i :: 0 <= i < |chunks| ==> 0 < |chunks[i]| <= READ_BUFFER
    ensures tail == LastBytes(Flatten(chunks), MAX_STDERR_BYTES)
    ensures IsTail(Flatten(chunks), tail)
  {
    tail := [];
    var i := 0;
    while i < |chunks|
      invariant 0 <= i <= |chunks|
      invariant tail == LastBytes(Flatten(chunks[..i]), MAX_STDERR_BYTES)
    {
      assert chunks[..i + 1][..i] == chunks[..i];
      TailOfTail(Flatten(chunks[..i]), chunks[i], MAX_STDERR_BYTES);
      tail := tail + chunks[i];
      assert |tail| <= MAX_STDERR_BYTES + READ_BUFFER;
      if |tail| > MAX_STDERR_BYTES {
        tail := tail[|tail| - MAX_STDERR_BYTES..];
      }
      i := i + 1;
    }
    assert chunks[..i] == chunks;
    TailIsTail(Flatten(chunks), tail);
  }

  /** A failure worth another try, in terms of what happened: everything up to the exit went well, git
      ended by itself with a failure, the staging directory could be emptied, and the end of what it
      said is known to pass and not known to last. */
  ghost predicate Passing(a: Attempt, staging: bool, cl: Classifier) {
    && a.spawned && a.readOk && a.waited && a.exit == Code && (staging ==> a.cleaned && a.cleanedAfter)
    && exists tail :: IsTail(Flatten(a.chunks), tail) && cl.transient(tail) && !cl.permanent(tail)
  }

  lemma RetriesExactlyPassing(a: Attempt, staging: bool, cl: Classifier)
    ensures Retries(a, staging, cl) <==> Passing(a, staging, cl)
  {
    var tail := LastBytes(Flatten(a.chunks), MAX_STDERR_BYTES);
    forall t ensures IsTail(Flatten(a.chunks), t) <==> t == tail { TailIsTail(Flatten(a.chunks), t); }
    assert IsTail(Flatten(a.chunks), tail);
  }

  /** What the environment must offer for a run to succeed, without reference to the loop. */
  ghost predicate SomeAttemptSucceeds(env: nat -> Attempt, staging: bool, cl: Classifier) {
    exists k: nat :: k <= MAX_RETRIES && Succeeds(env(k), staging)
                     && forall j: nat :: j < k ==> Retries(env(j), staging, cl)
  }

  /** Once attempt `k` is reached it decides, unless it is to be retried. */
  lemma AttemptDecides(env: nat -> Attempt, staging: bool, cl: Classifier, k: nat)
    requires k <= MAX_RETRIES && forall j: nat :: j < k ==> Retries(env(j), staging, cl)
    ensures Succeeds(env(k), staging) ==> SomeAttemptSucceeds(env, staging, cl)
    ensures !Succeeds(env(k), staging) && (k == MAX_RETRIES || !Retries(env(k), staging, cl)) ==>
              !SomeAttemptSucceeds(env, staging, cl)
  {
    if SomeAttemptSucceeds(env, staging, cl) && !Succeeds(env(k), staging) {
      var i: nat :| i <= MAX_RETRIES && Succeeds(env(i), staging)
                    && forall j: nat :: j < i ==> Retries(env(j), staging, cl);
      assert forall j: nat :: Retries(env(j), staging, cl) ==> !Succeeds(env(j), staging);
      assert i > k;
    }
  }

  /** The whole loop: at most four attempts and seven seconds of sleep, and success exactly when
      some attempt succeeds after nothing but retryable failures. */
  method RunUpstream(env: nat -> Attempt, staging: bool, cl: Classifier)
    returns (ok: bool, attempts: nat, slept: nat)
    requires forall k: nat, i :: 0 <= i < |env(k).chunks| ==> 0 < |env(k).chunks[i]| <= READ_BUFFER
    ensures 1 <= attempts <= MAX_RETRIES + 1 == 4
    ensures slept == SleptBefore(attempts - 1) == [0, 1, 3, 7][attempts - 1]
    ensures forall j: nat :: j < attempts - 1 ==> Retries(env(j), staging, cl)
    ensures ok <==> Succeeds(env(attempts - 1), staging)
    ensures ok <==> SomeAttemptSucceeds(env, staging, cl)
    ensures !ok ==> attempts == MAX_RETRIES + 1 || !Retries(env(attempts - 1), staging, cl)
    ensures forall j: nat :: j < attempts - 1 ==> Passing(env(j), staging, cl)
    ensures var a := env(attempts - 1);
            ok <==> a.spawned && a.readOk && a.waited && a.exit == Success && (staging ==> a.cleaned)
    ensures !ok && attempts < 4 ==> !Passing(env(attempts - 1), staging, cl)
  {
    var attempt: nat := 0;
    slept := 0;
    while attempt <= MAX_RETRIES
      invariant attempt <= MAX_RETRIES
      invariant slept == SleptBefore(attempt)
      invariant forall j: nat :: j < attempt ==> Retries(env(j), staging, cl) && Passing(env(j), staging, cl)
      decreases MAX_RETRIES + 1 - attempt
    {
      AttemptDecides(env, staging, cl, attempt);
      RetriesExactlyPassing(env(attempt), staging, cl);
      var a := env(attempt);
      attempts := attempt + 1;
      if staging && !a.cleaned { return false, attempts, slept; }
      if !a.spawned { return false, attempts, slept; }
      var tail := DrainTail(a.chunks);
      if !a.readOk { return false, attempts, slept; }
      if !a.waited { return false, attempts, slept; }
      if a.exit.Success? { return true, attempts, slept; }
      if staging && !a.cleanedAfter { return false, attempts, slept; }
      if cl.Retryable(tail) && a.exit.Code? && attempt < MAX_RETRIES {
        slept := slept + Delay(attempt);
        attempt := attempt + 1;
        continue;
      }
      return false, attempts, slept;
    }
    assert false; // the `unreachable!` after the loop
  }
}
