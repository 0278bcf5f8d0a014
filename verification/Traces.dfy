/** What the history fields of `Mirror` mean, in terms of the steps taken, and what holds without
    exception in a run in which no request leaves a file-system call behind. */
module Traces {
  import opened Common
  import opened Mirror

  // ---------------------------------------------------------------------------------
  // Which steps change the history
  // ---------------------------------------------------------------------------------

  /** A call left behind takes effect on the mirror or on a clone under way. */
  ghost predicate Lands(s: State, step: Step, n: string) {
    || step == LandRename(n)
    || (step.Bite? && step.name == n && (Has(s.mirrors, n, step.inode) || UnderWay(s, n)))
  }

  /** A request publishes. */
  ghost predicate Publishes(s: State, step: Step, n: string) {
    step.RenameIntoPlace? && step.t in s.threads && s.threads[step.t].name == n
  }

  /** A request publishes a finished clone. */
  ghost predicate PublishesFinished(s: State, step: Step, n: string) {
    Publishes(s, step, n) && n in s.staging && s.staging[n].body.Complete?
  }

  /** A request stores the stamp of a pull whose mirror is there. */
  ghost predicate Pulls(s: State, step: Step, n: string) {
    step.StoreStamp? && step.t in s.threads && s.threads[step.t].name == n && n in s.mirrors
  }

  /** The mirror goes away, or the process with everything it knew. */
  ghost predicate Disappears(s: State, step: Step, n: string) {
    step == HandDelete(n) || step.Crash? || (step.EvictRename? && s.evict.EvictReady? && s.evict.name == n)
  }

  /** Each field has gained and lost what `step` adds to it and takes from it, and nothing else. */
  ghost predicate ChangesExactly(s: State, s': State, step: Step, n: string) {
    && (n in s'.landed <==> Lands(s, step, n) || (n in s.landed && !PublishesFinished(s, step, n)))
    && (n in s'.gone <==> step == HandDelete(n) || (n in s.gone && !Publishes(s, step, n) && step != LandRename(n)))
    && (n in s'.lastPull <==> Pulls(s, step, n) || (n in s.lastPull && !Disappears(s, step, n)))
    && (n in s'.lastPull ==>
          s'.lastPull[n] == if Pulls(s, step, n) then s.threads[step.t].started else s.lastPull[n])
    && (s'.leftover == s.leftover || step.DropInFlight? || LateStep(step) || (step.Crash? && s'.leftover == multiset{}))
  }

  lemma EnterChanges(ttl: Time, s: State, step: Step, n: string)
    requires EnterStep(step) && EnterEnabled(ttl, s, step)
    ensures ChangesExactly(s, EnterNext(ttl, s, step), step, n)
  {
  }

  lemma LeaveChanges(ttl: Time, s: State, step: Step, n: string)
    requires LeaveStep(step) && LeaveEnabled(ttl, s, step)
    ensures ChangesExactly(s, LeaveNext(ttl, s, step), step, n)
  {
  }

  lemma DecideChanges(ttl: Time, s: State, step: Step, n: string)
    requires DecideStep(step) && DecideEnabled(ttl, s, step)
    ensures ChangesExactly(s, DecideNext(ttl, s, step), step, n)
  {
  }

  lemma CloneChanges(ttl: Time, s: State, step: Step, n: string)
    requires CloneStep(step) && CloneEnabled(ttl, s, step)
    ensures ChangesExactly(s, CloneNext(ttl, s, step), step, n)
  {
  }

  lemma FetchChanges(ttl: Time, s: State, step: Step, n: string)
    requires FetchStep(step) && FetchEnabled(ttl, s, step)
    ensures ChangesExactly(s, FetchNext(ttl, s, step), step, n)
  {
  }

  lemma EvictEntryChanges(ttl: Time, s: State, step: Step, n: string)
    requires EvictEntryStep(step) && EvictEnabled(ttl, s, step)
    ensures ChangesExactly(s, EvictNext(ttl, s, step), step, n)
  {
  }

  lemma EvictWorkChanges(ttl: Time, s: State, step: Step, n: string)
    requires EvictWorkStep(step) && EvictEnabled(ttl, s, step)
    ensures ChangesExactly(s, EvictNext(ttl, s, step), step, n)
  {
  }

  lemma LandChanges(ttl: Time, s: State, step: Step, n: string)
    requires step.LandRename? && LateEnabled(ttl, s, step)
    ensures ChangesExactly(s, LateNext(ttl, s, step), step, n)
  {
  }

  lemma RemovalChanges(ttl: Time, s: State, step: Step, n: string)
    requires LateStep(step) && !step.LandRename? && LateEnabled(ttl, s, step)
    ensures ChangesExactly(s, LateNext(ttl, s, step), step, n)
  {
  }

  lemma WorldChanges(ttl: Time, s: State, step: Step, n: string)
    requires WorldStep(step) && WorldEnabled(ttl, s, step)
    ensures ChangesExactly(s, WorldNext(ttl, s, step), step, n)
  {
  }

  /** No name is excepted, and no pull or deletion is on record, but for the steps listed. */
  lemma HistoryExactly(ttl: Time, s: State, step: Step, n: string)
    requires Enabled(ttl, s, step)
    ensures ChangesExactly(s, Next(ttl, s, step), step, n)
  {
    if EnterStep(step) {
      EnterChanges(ttl, s, step, n);
    } else if LeaveStep(step) {
      LeaveChanges(ttl, s, step, n);
    } else if DecideStep(step) {
      DecideChanges(ttl, s, step, n);
    } else if CloneStep(step) {
      CloneChanges(ttl, s, step, n);
    } else if FetchStep(step) {
      FetchChanges(ttl, s, step, n);
    } else if EvictEntryStep(step) {
      EvictEntryChanges(ttl, s, step, n);
    } else if EvictWorkStep(step) {
      EvictWorkChanges(ttl, s, step, n);
    } else if step.LandRename? {
      LandChanges(ttl, s, step, n);
    } else if LateStep(step) {
      RemovalChanges(ttl, s, step, n);
    } else {
      WorldChanges(ttl, s, step, n);
    }
  }

  // ---------------------------------------------------------------------------------
  // Runs in which nothing is left behind
  // ---------------------------------------------------------------------------------

  ghost predicate NothingLeft(s: State) { s.leftover == multiset{} && s.landed == {} }

  lemma LateNeedsLeftover(ttl: Time, s: State, step: Step)
    requires LateStep(step) && s.leftover == multiset{}
    ensures !Enabled(ttl, s, step)
  {
  }

  lemma NothingAdded(s: State, s': State, step: Step)
    requires NothingLeft(s) && !step.DropInFlight? && !LateStep(step) && forall n :: ChangesExactly(s, s', step, n)
    ensures NothingLeft(s')
  {
    assert ChangesExactly(s, s', step, "");
    forall n ensures n !in s'.landed { assert ChangesExactly(s, s', step, n); }
  }

  lemma StepLeavesNothing(ttl: Time, s: State, step: Step)
    requires Enabled(ttl, s, step) && !step.DropInFlight? && NothingLeft(s)
    ensures NothingLeft(Next(ttl, s, step))
  {
    if LateStep(step) { LateNeedsLeftover(ttl, s, step); }
    forall n ensures ChangesExactly(s, Next(ttl, s, step), step, n) { HistoryExactly(ttl, s, step, n); }
    NothingAdded(s, Next(ttl, s, step), step);
  }

  /** In a run in which no request is dropped with a file-system call under way, no name is excepted
      from anything; and what is on record as deleted by hand was. */
  lemma {:induction false} NothingLeftBehind(ttl: Time, s: State, steps: seq<Step>, n: string)
    requires NothingLeft(s) && After(ttl, s, steps).Reached?
    requires forall i :: 0 <= i < |steps| ==> !steps[i].DropInFlight?
    ensures NothingLeft(After(ttl, s, steps).state)
    ensures n in After(ttl, s, steps).state.gone ==> n in s.gone || HandDelete(n) in steps
    decreases |steps|
  {
    if steps != [] {
      assert !steps[0].DropInFlight?;
      StepLeavesNothing(ttl, s, steps[0]);
      HistoryExactly(ttl, s, steps[0], n);
      NothingLeftBehind(ttl, Next(ttl, s, steps[0]), steps[1..], n);
      assert steps == [steps[0]] + steps[1..];
    }
  }

  /** So in such a run, a condition on its steps alone, publication is atomic and staleness bounded
      without exception: every visible mirror is a finished clone that was read no earlier than its
      stamp says; a finished clone can be published; and whoever asked for a fresh mirror gets one
      read after its own stamp or less than the TTL before its decision, or one somebody deleted. */
  lemma UndisturbedRuns(ttl: Time, s0: State, steps: seq<Step>, n: string, t: nat)
    requires Init(s0) && s0.gone == {} && After(ttl, s0, steps).Reached?
    requires forall i :: 0 <= i < |steps| ==> !steps[i].DropInFlight?
    ensures var s := After(ttl, s0, steps).state;
            && !ShownIncomplete(s, n) && !Misdated(s, n)
            && (t in s.threads && s.threads[t].pc.CloneDone? ==> Enabled(ttl, s, RenameIntoPlace(t)))
            && (t in s.threads && s.threads[t].pc.Serving? && s.threads[t].wantFetch
                && HandDelete(s.threads[t].name) !in steps ==>
                  var th := s.threads[t];
                  && th.name in s.mirrors && s.mirrors[th.name].body.Complete?
                  && var read := s.mirrors[th.name].body.read;
                     match th.pc.outcome
                     case Cached(decided) => read + ttl > decided >= th.started
                     case _ => read >= th.started)
  {
    var s := After(ttl, s0, steps).state;
    NothingLeftBehind(ttl, s0, steps, n);
    AtomicPublication(ttl, s0, steps, n, t);
    BoundedStaleness(ttl, s0, steps, t);
    if t in s.threads { NothingLeftBehind(ttl, s0, steps, s.threads[t].name); }
    InvAlways(ttl, s0, steps);
    assert NameInv(s, n);
  }
}
