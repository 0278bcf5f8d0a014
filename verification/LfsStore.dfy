/** The object store of src/lfs.rs (`ensure_object`, `fetch_object`, `tmp_path`): concurrent
    requests for content-addressed objects, downloads streamed to uniquely named temporary files,
    verified and renamed into place, with removals, failures, dropped requests and crashes at any
    step. The hash is an arbitrary function `sha`; nothing below depends on which one. */
module LfsStore {
  import opened Common

  datatype Pc =
    | Called                     // the first existence check comes next
    | Missed                     // not there; waiting for the object's lock
    | Locked                     // the second existence check comes next
    | Fetching                   // not there under the lock; asking upstream for a URL
    | Downloading(tmp: nat)      // temporary file created, chunks arriving
    | Downloaded(tmp: nat)       // flushed; the hash comes next
    | Verified(tmp: nat)         // hash matched; the rename comes next
    | Stored                     // renamed; about to return `Miss`

  datatype Thread = Thread(oid: string, pc: Pc)

  /** Who may still touch a temporary file: a request, or the rename that a dropped request left
      in flight on the blocking pool. */
  datatype Owner = OwnedBy(thread: nat) | InFlight(oid: string)

  datatype Event = StoredEvent(oid: string) | RemovedEvent(oid: string) | StatErrorEvent(oid: string)

  /** `owner` says who may still act on a temporary file: a rename left in flight goes by it. `log`
      records history and steers nothing. */
  datatype State = State(
    objects: map<string, Bytes>,
    tmp: map<nat, Bytes>,
    counter: nat,
    locks: map<string, nat>,
    threads: map<nat, Thread>,
    owner: map<nat, Owner>,
    log: seq<Event>)

  datatype Step =
    | Call(t: nat, oid: string)
    | Hit(t: nat)                  // either check finds the file
    | Miss(t: nat)                 // the first check does not (or cannot tell)
    | Lock(t: nat)
    | MissAgain(t: nat)            // the second check finds nothing
    | StatError(t: nat)            // the second check fails, which counts as nothing
    | StartDownload(t: nat)
    | Chunk(t: nat, bytes: Bytes)
    | Flush(t: nat)
    | HashMatches(t: nat)
    | Rename(t: nat)
    | Finish(t: nat, tmpRemoved: bool)   // returned, failed or dropped
    | DropDuringRename(t: nat)
    | RenameInFlight(n: nat)
    | Remove(oid: string)          // the evictor, or an operator
    | Crash

  predicate HoldsLock(pc: Pc) { !pc.Called? && !pc.Missed? }

  predicate Busy(pc: Pc) { HoldsLock(pc) && !pc.Locked? && !pc.Stored? }

  predicate HasTmp(pc: Pc) { pc.Downloading? || pc.Downloaded? || pc.Verified? }

  ghost predicate Enabled(sha: Bytes -> string, s: State, step: Step) {
    match step
    case Call(t, oid) => t !in s.threads
    case Hit(t) => t in s.threads && (s.threads[t].pc.Called? || s.threads[t].pc.Locked?) && s.threads[t].oid in s.objects
    case Miss(t) => t in s.threads && s.threads[t].pc.Called?
    case Lock(t) => t in s.threads && s.threads[t].pc.Missed? && s.threads[t].oid !in s.locks
    case MissAgain(t) => t in s.threads && s.threads[t].pc.Locked? && s.threads[t].oid !in s.objects
    case StatError(t) => t in s.threads && s.threads[t].pc.Locked?
    case StartDownload(t) => t in s.threads && s.threads[t].pc.Fetching?
    case Chunk(t, b) => t in s.threads && s.threads[t].pc.Downloading? && s.threads[t].pc.tmp in s.tmp
    case Flush(t) => t in s.threads && s.threads[t].pc.Downloading?
    case HashMatches(t) =>
      && t in s.threads && s.threads[t].pc.Downloaded? && s.threads[t].pc.tmp in s.tmp
      && sha(s.tmp[s.threads[t].pc.tmp]) == s.threads[t].oid
    case Rename(t) => t in s.threads && s.threads[t].pc.Verified? && s.threads[t].pc.tmp in s.tmp
    case Finish(t, removed) => t in s.threads
    case DropDuringRename(t) => t in s.threads && s.threads[t].pc.Verified?
    case RenameInFlight(n) => n in s.owner && s.owner[n].InFlight? && n in s.tmp
    case Remove(oid) => oid in s.objects
    case Crash => true
  }

  function Goto(s: State, t: nat, pc: Pc): State
    requires t in s.threads
  {
    s.(threads := s.threads[t := s.threads[t].(pc := pc)])
  }

  /** The request is over: its lock guard, if it had one, is dropped. */
  function Leave(s: State, t: nat): State
    requires t in s.threads
  {
    s.(threads := s.threads - {t},
       locks := if HoldsLock(s.threads[t].pc) then s.locks - {s.threads[t].oid} else s.locks)
  }

  ghost function Next(sha: Bytes -> string, s: State, step: Step): State
    requires Enabled(sha, s, step)
  {
    match step
    case Call(t, oid) => s.(threads := s.threads[t := Thread(oid, Called)])
    case Hit(t) => Leave(s, t)
    case Miss(t) => Goto(s, t, Missed)
    case Lock(t) => Goto(s.(locks := s.locks[s.threads[t].oid := t]), t, Locked)
    case MissAgain(t) => Goto(s, t, Fetching)
    case StatError(t) => Goto(s.(log := s.log + [StatErrorEvent(s.threads[t].oid)]), t, Fetching)
    case StartDownload(t) =>
      var n := s.counter;
      Goto(s.(counter := n + 1, tmp := s.tmp[n := []], owner := s.owner[n := OwnedBy(t)]), t, Downloading(n))
    case Chunk(t, b) =>
      var n := s.threads[t].pc.tmp;
      s.(tmp := s.tmp[n := s.tmp[n] + b])
    case Flush(t) => Goto(s, t, Downloaded(s.threads[t].pc.tmp))
    case HashMatches(t) => Goto(s, t, Verified(s.threads[t].pc.tmp))
    case Rename(t) =>
      var n, oid := s.threads[t].pc.tmp, s.threads[t].oid;
      Goto(s.(objects := s.objects[oid := s.tmp[n]], tmp := s.tmp - {n}, log := s.log + [StoredEvent(oid)]), t, Stored)
    case Finish(t, removed) =>
      Leave(if removed && HasTmp(s.threads[t].pc) then s.(tmp := s.tmp - {s.threads[t].pc.tmp}) else s, t)
    case DropDuringRename(t) =>
      Leave(s.(owner := s.owner[s.threads[t].pc.tmp := InFlight(s.threads[t].oid)]), t)
    case RenameInFlight(n) =>
      s.(objects := s.objects[s.owner[n].oid := s.tmp[n]], tmp := s.tmp - {n})
    case Remove(oid) => s.(objects := s.objects - {oid}, log := s.log + [RemovedEvent(oid)])
    case Crash => s.(counter := 0, locks := map[], threads := map[], owner := map[])
  }

  // ---------------------------------------------------------------------------------
  // Invariants
  // ---------------------------------------------------------------------------------

  /** The last thing the log says about `oid` is that it was stored. */
  ghost predicate StoredLast(log: seq<Event>, oid: string) {
    log != [] &&
    var e := log[|log| - 1];
    if e.oid == oid then e.StoredEvent? else StoredLast(log[..|log| - 1], oid)
  }

  ghost predicate ObjectInv(sha: Bytes -> string, s: State, oid: string) {
    && (oid in s.objects ==> sha(s.objects[oid]) == oid)
    && (StoredLast(s.log, oid) ==> oid in s.objects)
  }

  ghost predicate TmpInv(sha: Bytes -> string, s: State, n: nat) {
    n in s.owner ==>
      && n < s.counter
      && (s.owner[n].InFlight? && n in s.tmp ==> sha(s.tmp[n]) == s.owner[n].oid)
  }

  ghost predicate ThreadInv(sha: Bytes -> string, s: State, t: nat) {
    t in s.threads ==>
      var th := s.threads[t];
      && (HoldsLock(th.pc) ==> th.oid in s.locks && s.locks[th.oid] == t)
      && (HasTmp(th.pc) ==> th.pc.tmp in s.owner && s.owner[th.pc.tmp] == OwnedBy(t) && th.pc.tmp in s.tmp)
      && (th.pc.Verified? ==> sha(s.tmp[th.pc.tmp]) == th.oid)
      && (Busy(th.pc) ==> !StoredLast(s.log, th.oid))
  }

  /** A lock is held by a request that is there. */
  ghost predicate LockInv(s: State, oid: string) {
    oid in s.locks ==>
      var t := s.locks[oid];
      t in s.threads && s.threads[t].oid == oid && HoldsLock(s.threads[t].pc)
  }

  ghost predicate Inv(sha: Bytes -> string, s: State) {
    && (forall oid :: LockInv(s, oid))
    && (forall oid :: ObjectInv(sha, s, oid))
    && (forall n :: TmpInv(sha, s, n))
    && (forall t :: ThreadInv(sha, s, t))
  }

  predicate ThreadStep(step: Step) {
    !step.RenameInFlight? && !step.Remove? && !step.Crash?
  }

  lemma LogStep(s: State, e: Event, oid: string)
    ensures StoredLast(s.log + [e], oid) <==> if e.oid == oid then e.StoredEvent? else StoredLast(s.log, oid)
  {
    assert (s.log + [e])[..|s.log|] == s.log;
  }

  /** The event a step appends to the log, if any. */
  ghost function Logged(sha: Bytes -> string, s: State, step: Step): seq<Event>
    requires Enabled(sha, s, step)
  {
    match step
    case StatError(t) => [StatErrorEvent(s.threads[t].oid)]
    case Rename(t) => [StoredEvent(s.threads[t].oid)]
    case Remove(oid) => [RemovedEvent(oid)]
    case _ => []
  }

  lemma StepKeepsObject(sha: Bytes -> string, s: State, step: Step, oid: string)
    requires Enabled(sha, s, step) && ObjectInv(sha, s, oid)
    requires ThreadStep(step) ==> ThreadInv(sha, s, step.t)
    requires step.RenameInFlight? ==> TmpInv(sha, s, step.n)
    ensures ObjectInv(sha, Next(sha, s, step), oid)
  {
    if Logged(sha, s, step) != [] { LogStep(s, Logged(sha, s, step)[0], oid); }
  }

  lemma StepKeepsLock(sha: Bytes -> string, s: State, step: Step, oid: string)
    requires Enabled(sha, s, step) && LockInv(s, oid)
    requires ThreadStep(step) ==> ThreadInv(sha, s, step.t)
    ensures LockInv(Next(sha, s, step), oid)
  {
  }

  lemma StepKeepsTmp(sha: Bytes -> string, s: State, step: Step, n: nat)
    requires Enabled(sha, s, step) && TmpInv(sha, s, n)
    requires ThreadStep(step) ==> ThreadInv(sha, s, step.t)
    ensures TmpInv(sha, Next(sha, s, step), n)
  {
  }

  lemma ActorKeepsThread(sha: Bytes -> string, s: State, step: Step)
    requires Enabled(sha, s, step) && ThreadStep(step) && ThreadInv(sha, s, step.t)
    requires step.t in s.threads ==> ObjectInv(sha, s, s.threads[step.t].oid)
    ensures ThreadInv(sha, Next(sha, s, step), step.t)
  {
    if Logged(sha, s, step) != [] { LogStep(s, Logged(sha, s, step)[0], s.threads[step.t].oid); }
  }

  predicate FileStep(step: Step) {
    step.StartDownload? || step.Chunk? || step.Rename? || step.Finish? || step.DropDuringRename? || step.RenameInFlight?
  }

  lemma FileStepKeepsThread(sha: Bytes -> string, s: State, step: Step, t: nat)
    requires Enabled(sha, s, step) && ThreadInv(sha, s, t)
    requires ThreadStep(step) ==> step.t != t && ThreadInv(sha, s, step.t)
    requires t in s.threads && HasTmp(s.threads[t].pc) ==> TmpInv(sha, s, s.threads[t].pc.tmp)
    requires FileStep(step)
    ensures ThreadInv(sha, Next(sha, s, step), t)
  {
    if t in s.threads && Logged(sha, s, step) != [] {
      LogStep(s, Logged(sha, s, step)[0], s.threads[t].oid);
    }
  }

  lemma LockStepKeepsThread(sha: Bytes -> string, s: State, step: Step, t: nat)
    requires Enabled(sha, s, step) && ThreadInv(sha, s, t)
    requires ThreadStep(step) ==> step.t != t && ThreadInv(sha, s, step.t)
    requires t in s.threads && HasTmp(s.threads[t].pc) ==> TmpInv(sha, s, s.threads[t].pc.tmp)
    requires !FileStep(step)
    ensures ThreadInv(sha, Next(sha, s, step), t)
  {
    if t in s.threads && Logged(sha, s, step) != [] {
      LogStep(s, Logged(sha, s, step)[0], s.threads[t].oid);
    }
  }

  lemma OtherKeepsThread(sha: Bytes -> string, s: State, step: Step, t: nat)
    requires Enabled(sha, s, step) && ThreadInv(sha, s, t)
    requires ThreadStep(step) ==> step.t != t && ThreadInv(sha, s, step.t)
    requires t in s.threads && HasTmp(s.threads[t].pc) ==> TmpInv(sha, s, s.threads[t].pc.tmp)
    ensures ThreadInv(sha, Next(sha, s, step), t)
  {
    if FileStep(step) {
      FileStepKeepsThread(sha, s, step, t);
    } else {
      LockStepKeepsThread(sha, s, step, t);
    }
  }

  lemma StepKeepsInv(sha: Bytes -> string, s: State, step: Step)
    requires Inv(sha, s) && Enabled(sha, s, step)
    ensures Inv(sha, Next(sha, s, step))
  {
    var s' := Next(sha, s, step);
    if ThreadStep(step) { assert ThreadInv(sha, s, step.t); }
    if step.RenameInFlight? { assert TmpInv(sha, s, step.n); }
    forall oid ensures LockInv(s', oid) {
      assert LockInv(s, oid);
      StepKeepsLock(sha, s, step, oid);
    }
    forall oid ensures ObjectInv(sha, s', oid) { StepKeepsObject(sha, s, step, oid); }
    forall n ensures TmpInv(sha, s', n) { StepKeepsTmp(sha, s, step, n); }
    forall t ensures ThreadInv(sha, s', t) {
      if ThreadStep(step) && step.t == t {
        assert t in s.threads ==> ObjectInv(sha, s, s.threads[t].oid);
        ActorKeepsThread(sha, s, step);
      } else {
        assert ThreadInv(sha, s, t);
        assert t in s.threads && HasTmp(s.threads[t].pc) ==> TmpInv(sha, s, s.threads[t].pc.tmp);
        OtherKeepsThread(sha, s, step, t);
      }
    }
  }

  // ---------------------------------------------------------------------------------
  // Runs
  // ---------------------------------------------------------------------------------

  /** A process start on a store whose objects are intact; leftover temporary files may be any. */
  ghost predicate Init(sha: Bytes -> string, s: State) {
    && s.locks == map[] && s.threads == map[] && s.owner == map[] && s.log == [] && s.counter == 0
    && forall oid :: oid in s.objects ==> sha(s.objects[oid]) == oid
  }

  ghost function After(sha: Bytes -> string, s: State, steps: seq<Step>): RunResult<State>
    decreases |steps|
  {
    if steps == [] then Reached(s)
    else if Enabled(sha, s, steps[0]) then After(sha, Next(sha, s, steps[0]), steps[1..])
    else Blocked
  }

  lemma {:induction false} InvAlways(sha: Bytes -> string, s: State, steps: seq<Step>)
    requires Inv(sha, s) && After(sha, s, steps).Reached?
    ensures Inv(sha, After(sha, s, steps).state)
    decreases |steps|
  {
    if steps != [] {
      StepKeepsInv(sha, s, steps[0]);
      InvAlways(sha, Next(sha, s, steps[0]), steps[1..]);
    }
  }

  /** Integrity: in every run, every stored object hashes to the name it is stored under. */
  lemma StoredObjectsHashToTheirName(sha: Bytes -> string, s0: State, steps: seq<Step>, oid: string)
    requires Init(sha, s0) && After(sha, s0, steps).Reached?
    ensures var s := After(sha, s0, steps).state;
            oid in s.objects ==> sha(s.objects[oid]) == oid
  {
    InvAlways(sha, s0, steps);
    assert ObjectInv(sha, After(sha, s0, steps).state, oid);
  }

  /** Single flight: in every run, at most one request per object is past the second check. */
  lemma OneDownloadPerObject(sha: Bytes -> string, s0: State, steps: seq<Step>, t: nat, u: nat)
    requires Init(sha, s0) && After(sha, s0, steps).Reached?
    ensures var s := After(sha, s0, steps).state;
            && t in s.threads && u in s.threads && s.threads[t].oid == s.threads[u].oid
            && Busy(s.threads[t].pc) && Busy(s.threads[u].pc)
            ==> t == u
  {
    InvAlways(sha, s0, steps);
    var s := After(sha, s0, steps).state;
    assert ThreadInv(sha, s, t) && ThreadInv(sha, s, u);
  }

  /** Two stores of `oid` with nothing said about it in between. */
  ghost predicate StoredTwiceInARow(log: seq<Event>, oid: string, i: int, j: int) {
    && 0 <= i < j < |log| && log[i] == StoredEvent(oid) && log[j] == StoredEvent(oid)
    && forall k :: i < k < j ==> log[k].oid != oid || log[k].StoredEvent?
  }

  ghost predicate NoRepeat(log: seq<Event>) {
    forall j :: 0 <= j < |log| && log[j].StoredEvent? ==> !StoredLast(log[..j], log[j].oid)
  }

  lemma StepKeepsNoRepeat(sha: Bytes -> string, s: State, step: Step)
    requires Inv(sha, s) && Enabled(sha, s, step) && NoRepeat(s.log)
    ensures NoRepeat(Next(sha, s, step).log)
  {
    var log' := Next(sha, s, step).log;
    assert log' == s.log + Logged(sha, s, step);
    if step.Rename? { assert ThreadInv(sha, s, step.t); }
    forall j | 0 <= j < |log'| && log'[j].StoredEvent? ensures !StoredLast(log'[..j], log'[j].oid) {
      assert log'[..j] == s.log[..j];
      if j == |s.log| { assert s.log[..j] == s.log; }
    }
  }

  lemma {:induction false} NoRepeatAlways(sha: Bytes -> string, s: State, steps: seq<Step>)
    requires Inv(sha, s) && NoRepeat(s.log) && After(sha, s, steps).Reached?
    ensures NoRepeat(After(sha, s, steps).state.log)
    decreases |steps|
  {
    if steps != [] {
      StepKeepsInv(sha, s, steps[0]);
      StepKeepsNoRepeat(sha, s, steps[0]);
      NoRepeatAlways(sha, Next(sha, s, steps[0]), steps[1..]);
    }
  }

  lemma {:induction false} StoredStaysLast(log: seq<Event>, oid: string, i: int, j: int)
    requires 0 <= i < j <= |log| && log[i] == StoredEvent(oid)
    requires forall k :: i < k < j ==> log[k].oid != oid || log[k].StoredEvent?
    ensures StoredLast(log[..j], oid)
    decreases j
  {
    assert log[..j][..j - 1] == log[..j - 1];
    if i < j - 1 && log[j - 1].oid != oid {
      StoredStaysLast(log, oid, i, j - 1);
    }
  }

  /** Every repeat download is called for: between two downloads of one object that a request saw
      through, the object was removed, or a request could not tell whether it was there. */
  lemma RepeatDownloadNeedsRemoval(sha: Bytes -> string, s0: State, steps: seq<Step>, oid: string, i: int, j: int)
    requires Init(sha, s0) && After(sha, s0, steps).Reached?
    ensures !StoredTwiceInARow(After(sha, s0, steps).state.log, oid, i, j)
  {
    InvAlways(sha, s0, steps);
    NoRepeatAlways(sha, s0, steps);
    var log := After(sha, s0, steps).state.log;
    if StoredTwiceInARow(log, oid, i, j) {
      StoredStaysLast(log, oid, i, j);
    }
  }

  // ---------------------------------------------------------------------------------
  // What is stored is what arrived
  // ---------------------------------------------------------------------------------

  /** The bytes request `t` has received, by the steps alone: its chunks since its download began. */
  ghost function Received(steps: seq<Step>, t: nat): Bytes {
    if steps == [] then []
    else
      var k := |steps| - 1;
      if steps[k] == StartDownload(t) then []
      else if steps[k].Chunk? && steps[k].t == t then Received(steps[..k], t) + steps[k].bytes
      else Received(steps[..k], t)
  }

  /** The temporary file of request `t`, if it has one, holds `bytes`. */
  ghost predicate FileHolds(s: State, t: nat, bytes: Bytes) {
    t in s.threads && HasTmp(s.threads[t].pc) ==>
      s.threads[t].pc.tmp in s.tmp && s.tmp[s.threads[t].pc.tmp] == bytes
  }

  lemma StepFile(sha: Bytes -> string, s: State, step: Step, t: nat, bytes: Bytes)
    requires Inv(sha, s) && Enabled(sha, s, step) && FileHolds(s, t, bytes)
    ensures var bytes' := if step == StartDownload(t) then []
                          else if step.Chunk? && step.t == t then bytes + step.bytes else bytes;
            FileHolds(Next(sha, s, step), t, bytes')
  {
    assert ThreadInv(sha, s, t);
    if ThreadStep(step) { assert ThreadInv(sha, s, step.t); }
    if t in s.threads && HasTmp(s.threads[t].pc) { assert TmpInv(sha, s, s.threads[t].pc.tmp); }
    if ThreadStep(step) && step.t == t {
      OwnFile(sha, s, step, bytes);
    } else {
      OtherFile(sha, s, step, t, bytes);
    }
  }

  lemma OwnFile(sha: Bytes -> string, s: State, step: Step, bytes: Bytes)
    requires ThreadStep(step) && Enabled(sha, s, step) && FileHolds(s, step.t, bytes)
    requires ThreadInv(sha, s, step.t)
    ensures var bytes' := if step.StartDownload? then [] else if step.Chunk? then bytes + step.bytes else bytes;
            FileHolds(Next(sha, s, step), step.t, bytes')
  {
  }

  lemma OtherFile(sha: Bytes -> string, s: State, step: Step, t: nat, bytes: Bytes)
    requires Enabled(sha, s, step) && FileHolds(s, t, bytes) && ThreadInv(sha, s, t)
    requires ThreadStep(step) ==> step.t != t && ThreadInv(sha, s, step.t)
    requires t in s.threads && HasTmp(s.threads[t].pc) ==> TmpInv(sha, s, s.threads[t].pc.tmp)
    ensures FileHolds(Next(sha, s, step), t, bytes)
  {
  }

  lemma {:induction false} Snoc(sha: Bytes -> string, s: State, steps: seq<Step>, step: Step)
    ensures var r := After(sha, s, steps);
            After(sha, s, steps + [step]) ==
              if r.Reached? && Enabled(sha, r.state, step) then Reached(Next(sha, r.state, step)) else Blocked
    decreases |steps|
  {
    var longer := steps + [step];
    if steps == [] {
      assert longer[1..] == [];
    } else {
      assert longer[1..] == steps[1..] + [step];
      if Enabled(sha, s, steps[0]) { Snoc(sha, Next(sha, s, steps[0]), steps[1..], step); }
    }
  }

  /** In every run, the temporary file of a request is the concatenation of the chunks it received. */
  lemma {:induction false} FileIsWhatArrived(sha: Bytes -> string, s0: State, steps: seq<Step>, t: nat)
    requires Init(sha, s0) && After(sha, s0, steps).Reached?
    ensures FileHolds(After(sha, s0, steps).state, t, Received(steps, t))
    decreases |steps|
  {
    if steps != [] {
      var k := |steps| - 1;
      assert steps == steps[..k] + [steps[k]];
      Snoc(sha, s0, steps[..k], steps[k]);
      FileIsWhatArrived(sha, s0, steps[..k], t);
      InvAlways(sha, s0, steps[..k]);
      StepFile(sha, After(sha, s0, steps[..k]).state, steps[k], t, Received(steps[..k], t));
    }
  }

  /** So what a request stores is exactly what it received. */
  lemma StoresWhatArrived(sha: Bytes -> string, s0: State, steps: seq<Step>, t: nat)
    requires Init(sha, s0) && After(sha, s0, steps + [Rename(t)]).Reached?
    ensures var before, after := After(sha, s0, steps), After(sha, s0, steps + [Rename(t)]).state;
            && before.Reached? && t in before.state.threads
            && var oid := before.state.threads[t].oid;
               && after.objects == before.state.objects[oid := Received(steps, t)]
               && sha(Received(steps, t)) == oid
  {
    Snoc(sha, s0, steps, Rename(t));
    FileIsWhatArrived(sha, s0, steps, t);
    InvAlways(sha, s0, steps);
    assert ThreadInv(sha, After(sha, s0, steps).state, t);
  }

  // ---------------------------------------------------------------------------------
  // Everything upstream can deliver can be stored
  // ---------------------------------------------------------------------------------

  function Flatten(chunks: seq<Bytes>): Bytes {
    if chunks == [] then [] else chunks[0] + Flatten(chunks[1..])
  }

  /** Some run from `s` leads to `r`. */
  ghost predicate Leads(sha: Bytes -> string, s: State, r: State) { exists steps :: After(sha, s, steps) == Reached(r) }

  lemma OneMore(sha: Bytes -> string, s: State, r: State, step: Step) returns (r': State)
    requires Leads(sha, s, r) && Enabled(sha, r, step)
    ensures r' == Next(sha, r, step) && Leads(sha, s, r')
  {
    var steps :| After(sha, s, steps) == Reached(r);
    Snoc(sha, s, steps, step);
    r' := Next(sha, r, step);
  }

  /** A new request, as far as its lock. */
  lemma Entered(sha: Bytes -> string, s: State, t: nat, oid: string) returns (r: State)
    requires t !in s.threads && oid !in s.locks
    ensures Leads(sha, s, r)
    ensures r == s.(threads := s.threads[t := Thread(oid, Locked)], locks := s.locks[oid := t])
  {
    assert After(sha, s, []) == Reached(s);
    r := OneMore(sha, s, s, Call(t, oid));
    r := OneMore(sha, s, r, Miss(t));
    r := OneMore(sha, s, r, Lock(t));
  }

  /** As far as an open temporary file. */
  lemma Opened(sha: Bytes -> string, s: State, r0: State, t: nat) returns (r: State)
    requires Leads(sha, s, r0) && t in r0.threads && r0.threads[t].pc.Locked? && r0.threads[t].oid !in r0.objects
    ensures Leads(sha, s, r)
    ensures r == r0.(threads := r0.threads[t := r0.threads[t].(pc := Downloading(r0.counter))],
                     tmp := r0.tmp[r0.counter := []], counter := r.counter, owner := r.owner)
  {
    r := OneMore(sha, s, r0, MissAgain(t));
    r := OneMore(sha, s, r, StartDownload(t));
  }

  lemma {:induction false} Filled(sha: Bytes -> string, s: State, r0: State, t: nat, chunks: seq<Bytes>) returns (r: State)
    requires Leads(sha, s, r0) && t in r0.threads && r0.threads[t].pc.Downloading? && r0.threads[t].pc.tmp in r0.tmp
    ensures Leads(sha, s, r)
    ensures var n := r0.threads[t].pc.tmp; r == r0.(tmp := r0.tmp[n := r0.tmp[n] + Flatten(chunks)])
    decreases |chunks|
  {
    var n := r0.threads[t].pc.tmp;
    if chunks == [] {
      r := r0;
      assert r0.tmp[n] + [] == r0.tmp[n];
    } else {
      var m := Grown(sha, s, r0, t, chunks[0]);
      r := Filled(sha, s, m, t, chunks[1..]);
      assert m.tmp[n] + Flatten(chunks[1..]) == r0.tmp[n] + Flatten(chunks);
    }
  }

  lemma Grown(sha: Bytes -> string, s: State, r0: State, t: nat, chunk: Bytes) returns (r: State)
    requires Leads(sha, s, r0) && t in r0.threads && r0.threads[t].pc.Downloading? && r0.threads[t].pc.tmp in r0.tmp
    ensures Leads(sha, s, r)
    ensures var n := r0.threads[t].pc.tmp; r == r0.(tmp := r0.tmp[n := r0.tmp[n] + chunk])
  {
    r := OneMore(sha, s, r0, Chunk(t, chunk));
  }

  /** A file that checks out is published, and the request ends. */
  lemma Sealed(sha: Bytes -> string, s: State, r0: State, t: nat) returns (r: State)
    requires Leads(sha, s, r0) && t in r0.threads && r0.threads[t].pc.Downloading?
    requires r0.threads[t].pc.tmp in r0.tmp && sha(r0.tmp[r0.threads[t].pc.tmp]) == r0.threads[t].oid
    ensures Leads(sha, s, r) && r.objects == r0.objects[r0.threads[t].oid := r0.tmp[r0.threads[t].pc.tmp]]
    ensures r.threads == r0.threads - {t} && r.locks == r0.locks - {r0.threads[t].oid}
  {
    r := OneMore(sha, s, r0, Flush(t));
    r := OneMore(sha, s, r, HashMatches(t));
    r := Placed(sha, s, r, t);
    r := OneMore(sha, s, r, Finish(t, false));
  }

  lemma Placed(sha: Bytes -> string, s: State, r0: State, t: nat) returns (r: State)
    requires Leads(sha, s, r0) && t in r0.threads && r0.threads[t].pc.Verified? && r0.threads[t].pc.tmp in r0.tmp
    ensures Leads(sha, s, r) && r.objects == r0.objects[r0.threads[t].oid := r0.tmp[r0.threads[t].pc.tmp]]
    ensures r.threads == r0.threads[t := r0.threads[t].(pc := Stored)] && r.locks == r0.locks
  {
    r := OneMore(sha, s, r0, Rename(t));
  }

  /** From any state in which an object is neither stored nor being fetched, and for every way of cutting
      up contents that hash to its name, there is a run after which the store holds exactly those
      contents under it, and the lock is free again. */
  lemma EveryObjectCanBeStored(sha: Bytes -> string, s: State, t: nat, oid: string, chunks: seq<Bytes>)
    requires t !in s.threads && oid !in s.locks && oid !in s.objects && sha(Flatten(chunks)) == oid
    ensures exists r :: Leads(sha, s, r) && r.objects == s.objects[oid := Flatten(chunks)]
                        && r.threads == s.threads && r.locks == s.locks
  {
    var r := AllArrived(sha, s, t, oid, chunks);
    r := Sealed(sha, s, r, t);
    assert r.threads == s.threads && r.locks == s.locks;
  }

  lemma AllArrived(sha: Bytes -> string, s: State, t: nat, oid: string, chunks: seq<Bytes>) returns (r: State)
    requires t !in s.threads && oid !in s.locks && oid !in s.objects
    ensures Leads(sha, s, r) && r.objects == s.objects && r.locks == s.locks[oid := t]
    ensures r.threads == s.threads[t := Thread(oid, Downloading(s.counter))]
    ensures s.counter in r.tmp && r.tmp[s.counter] == Flatten(chunks)
  {
    r := Entered(sha, s, t, oid);
    r := Opened(sha, s, r, t);
    r := Filled(sha, s, r, t, chunks);
    assert [] + Flatten(chunks) == Flatten(chunks);
  }

  /** A stored object is a hit at either check, without a download, and leaves no trace. */
  lemma StoredIsHit(sha: Bytes -> string, s: State, t: nat)
    requires Inv(sha, s) && t in s.threads && s.threads[t].oid in s.objects
    requires s.threads[t].pc.Called? || s.threads[t].pc.Locked?
    ensures Enabled(sha, s, Hit(t))
    ensures var r := Next(sha, s, Hit(t));
            && r.objects == s.objects && r.tmp == s.tmp && r.counter == s.counter && r.threads == s.threads - {t}
            && (s.threads[t].oid in r.locks <==> s.threads[t].oid in s.locks && s.locks[s.threads[t].oid] != t)
  {
    assert ThreadInv(sha, s, t) && LockInv(s, s.threads[t].oid);
  }

  /** An existence check that finds nothing, or fails, never stops a request from downloading; and every
      request can end at any time, which frees its lock. */
  lemma NobodyIsStuck(sha: Bytes -> string, s: State, t: nat)
    requires Inv(sha, s) && t in s.threads
    ensures s.threads[t].pc.Called? ==> Enabled(sha, s, Miss(t))
    ensures s.threads[t].pc.Locked? ==> Enabled(sha, s, StatError(t))
    ensures Enabled(sha, s, Finish(t, true))
    ensures var r := Next(sha, s, Finish(t, true));
            t !in r.threads && (HoldsLock(s.threads[t].pc) ==> s.threads[t].oid !in r.locks)
  {
  }

  // ---------------------------------------------------------------------------------
  // What else can happen to the files
  // ---------------------------------------------------------------------------------

  /** The step puts a file in place under `oid`. */
  ghost predicate Publishes(s: State, step: Step, oid: string) {
    || (step.Rename? && step.t in s.threads && s.threads[step.t].oid == oid)
    || (step.RenameInFlight? && step.n in s.owner && s.owner[step.n] == InFlight(oid))
  }

  /** The store gains an object exactly by a rename, of the bytes that were checked, and loses one
      exactly by its own removal, which can come at any time. */
  lemma StoreChangesExactly(sha: Bytes -> string, s: State, step: Step, oid: string)
    requires Inv(sha, s) && Enabled(sha, s, step)
    ensures var s' := Next(sha, s, step);
            && (oid in s'.objects <==> (oid in s.objects && step != Remove(oid)) || Publishes(s, step, oid))
            && (oid in s'.objects && !Publishes(s, step, oid) ==> s'.objects[oid] == s.objects[oid])
    ensures oid in s.objects ==> Enabled(sha, s, Remove(oid))
  {
    if step.Rename? { assert ThreadInv(sha, s, step.t); }
  }

  /** A rename that a dropped request leaves in flight can still land: it publishes the checked bytes,
      after the lock has been given up. */
  lemma DroppedRenameCanLand(sha: Bytes -> string, s: State, t: nat)
    requires Inv(sha, s) && t in s.threads && s.threads[t].pc.Verified?
    ensures var n, oid := s.threads[t].pc.tmp, s.threads[t].oid;
            && n in s.tmp
            && exists m, r ::
                 && After(sha, s, [DropDuringRename(t)]) == Reached(m)
                 && After(sha, m, [RenameInFlight(n)]) == Reached(r)
                 && t !in m.threads && oid !in m.locks && m.objects == s.objects && m.tmp == s.tmp
                 && r.objects == s.objects[oid := s.tmp[n]] && r.tmp == s.tmp - {n} && r.locks == m.locks
  {
    assert ThreadInv(sha, s, t);
    var n := s.threads[t].pc.tmp;
    var m := Next(sha, s, DropDuringRename(t));
    assert After(sha, s, [DropDuringRename(t)]) == Reached(m) by {
      assert [DropDuringRename(t)][1..] == [];
    }
    assert m.owner[n] == InFlight(s.threads[t].oid);
    var r := Next(sha, m, RenameInFlight(n));
    assert After(sha, m, [RenameInFlight(n)]) == Reached(r) by {
      assert [RenameInFlight(n)][1..] == [];
    }
  }

  /** A crash forgets requests, locks and renames in flight, and leaves the files: what follows it is a
      process start on an intact store. */
  lemma CrashIsRestart(sha: Bytes -> string, s: State)
    requires Inv(sha, s)
    ensures Enabled(sha, s, Crash)
    ensures var r := Next(sha, s, Crash);
            r.objects == s.objects && r.tmp == s.tmp && Init(sha, r.(log := []))
  {
    forall oid | oid in s.objects ensures sha(s.objects[oid]) == oid { assert ObjectInv(sha, s, oid); }
  }

  /** Temporary file `n` belongs to a request still at work on it, or to a rename in flight. */
  ghost predicate InUse(s: State, n: nat) {
    n in s.owner &&
    match s.owner[n]
    case InFlight(oid) => true
    case OwnedBy(t) => t in s.threads && HasTmp(s.threads[t].pc) && s.threads[t].pc.tmp == n
  }

  /** Neither a crash nor a request that ends without removing its file. */
  predicate CleansUp(step: Step) { !step.Crash? && (step.Finish? ==> step.tmpRemoved) }

  lemma StepLeavesNoStray(sha: Bytes -> string, s: State, step: Step, n: nat)
    requires Enabled(sha, s, step) && CleansUp(step)
    requires n in s.tmp ==> InUse(s, n)
    ensures n in Next(sha, s, step).tmp ==> InUse(Next(sha, s, step), n)
  {
  }

  /** While requests clean up after themselves, no temporary file is left that nobody will finish with. */
  lemma {:induction false} NoStrayFiles(sha: Bytes -> string, s: State, steps: seq<Step>, n: nat)
    requires After(sha, s, steps).Reached? && (forall i :: 0 <= i < |steps| ==> CleansUp(steps[i]))
    requires n in s.tmp ==> InUse(s, n)
    ensures n in After(sha, s, steps).state.tmp ==> InUse(After(sha, s, steps).state, n)
    decreases |steps|
  {
    if steps != [] {
      assert CleansUp(steps[0]);
      StepLeavesNoStray(sha, s, steps[0], n);
      NoStrayFiles(sha, Next(sha, s, steps[0]), steps[1..], n);
    }
  }
}
