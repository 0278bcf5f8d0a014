/** From wherever a run of `Evictor` stands, it can come to rest: nobody is ever stuck. Progress itself
    depends on the scheduler; that it is always possible does not. */
module Rest {
  import opened Common
  import Index
  import opened Evictor
  import Accounts

  /** Some run from `s` leads to `r`. */
  ghost predicate Leads(c: Config, s: State, r: State) { exists steps :: After(c, s, steps) == Reached(r) }

  lemma Stay(c: Config, s: State)
    ensures Leads(c, s, s)
  {
    assert After(c, s, []) == Reached(s);
  }

  lemma Go(c: Config, s: State, r: State, step: Step) returns (r': State)
    requires Leads(c, s, r) && r.idx.Valid() && Enabled(c, r, step)
    ensures r' == Next(c, r, step) && Leads(c, s, r') && r'.idx.Valid()
  {
    var steps :| After(c, s, steps) == Reached(r);
    Accounts.Snoc(c, s, steps, step);
    StepKeepsValid(c, r, step);
    r' := Next(c, r, step);
  }

  // ---------------------------------------------------------------------------------
  // Requests can end
  // ---------------------------------------------------------------------------------

  /** Only the request for `n` has gone; the evictor is where it was. */
  ghost predicate Ended(s: State, r: State, n: string) { r.reqs == s.reqs - {n} && r.task == s.task && r.idx.Valid() }

  lemma Released(c: Config, s: State, r0: State, n: string) returns (r: State)
    requires Leads(c, s, r0) && r0.idx.Valid() && (Holds(r0, n, Pulling) || FetchingObject(r0, n))
    ensures Leads(c, s, r) && Ended(r0, r, n)
  {
    r := Go(c, s, r0, StepRelease(n));
  }

  lemma Notified(c: Config, s: State, r0: State, n: string) returns (r: State)
    requires Leads(c, s, r0) && r0.idx.Valid() && Holds(r0, n, MustNotify)
    ensures Leads(c, s, r) && Ended(r0, r, n)
  {
    r := Go(c, s, r0, StepNotify(n));
    r := Released(c, s, r, n);
    assert r.reqs == r0.reqs - {n};
  }

  lemma Marked(c: Config, s: State, r0: State, n: string) returns (r: State)
    requires Leads(c, s, r0) && r0.idx.Valid() && Holds(r0, n, MustMark)
    ensures Leads(c, s, r) && Ended(r0, r, n)
  {
    r := Go(c, s, r0, StepMark(n));
    r := Notified(c, s, r, n);
    assert r.reqs == r0.reqs - {n};
  }

  lemma Woken(c: Config, s: State, r0: State, n: string) returns (r: State)
    requires Leads(c, s, r0) && r0.idx.Valid() && Holds(r0, n, MustWake)
    ensures Leads(c, s, r) && Ended(r0, r, n)
  {
    r := Go(c, s, r0, StepWake(n));
  }

  lemma Recorded(c: Config, s: State, r0: State, n: string) returns (r: State)
    requires Leads(c, s, r0) && r0.idx.Valid() && n in r0.reqs && r0.reqs[n].MustRecord?
    ensures Leads(c, s, r) && Ended(r0, r, n)
  {
    r := InIndex(c, s, r0, n);
    r := Woken(c, s, r, n);
    assert r.reqs == r0.reqs - {n};
  }

  lemma InIndex(c: Config, s: State, r0: State, n: string) returns (r: State)
    requires Leads(c, s, r0) && r0.idx.Valid() && n in r0.reqs && r0.reqs[n].MustRecord?
    ensures Leads(c, s, r) && r.idx == Index.RecordBlob(r0.idx, n, r0.reqs[n].size) && r.idx.Valid() && r.task == r0.task
    ensures r.disk == r0.disk && r.residue == r0.residue && r.reqs == r0.reqs[n := MustWake]
  {
    r := Go(c, s, r0, StepRecord(n));
  }

  lemma RequestCanEnd(c: Config, s: State, r0: State, n: string) returns (r: State)
    requires Leads(c, s, r0) && r0.idx.Valid() && n in r0.reqs
    ensures Leads(c, s, r) && Ended(r0, r, n)
  {
    match r0.reqs[n]
    case Pulling => r := Released(c, s, r0, n);
    case Storing => r := Released(c, s, r0, n);
    case Downloading(id) => r := Released(c, s, r0, n);
    case MustMark => r := Marked(c, s, r0, n);
    case MustNotify => r := Notified(c, s, r0, n);
    case MustRecord(size) => r := Recorded(c, s, r0, n);
    case MustWake => r := Woken(c, s, r0, n);
  }

  lemma {:induction false} RequestsCanEnd(c: Config, s: State, r0: State) returns (r: State)
    requires Leads(c, s, r0) && r0.idx.Valid()
    ensures Leads(c, s, r) && r.idx.Valid() && r.reqs == map[] && r.task == r0.task
    decreases |r0.reqs|
  {
    r := r0;
    if r0.reqs != map[] {
      var n :| n in r0.reqs;
      var m := RequestCanEnd(c, s, r0, n);
      assert |m.reqs| < |r0.reqs| by { assert m.reqs.Keys == r0.reqs.Keys - {n}; }
      r := RequestsCanEnd(c, s, m);
    }
  }

  // ---------------------------------------------------------------------------------
  // A pass can end
  // ---------------------------------------------------------------------------------

  /** With nobody else about, the evictor alone moves, and no permit appears. */
  ghost predicate Alone(c: Config, s: State, r0: State, r: State) {
    Leads(c, s, r) && r.idx.Valid() && r.reqs == map[] && (r.permit ==> r0.permit)
  }

  /** What a walk finds. */
  ghost function Truth(s: State, n: string): u64 { if n in s.disk then s.disk[n] else 0 }

  lemma Walked(c: Config, s: State, r0: State, n: string) returns (r: State)
    requires Leads(c, s, r0) && r0.idx.Valid() && r0.task.Measuring? && n in r0.task.todo
    ensures Leads(c, s, r) && r.idx.Valid() && r.reqs == r0.reqs && r.permit == r0.permit
    ensures r.task.Measuring? && r.task.todo == r0.task.todo - {n}
  {
    r := Go(c, s, r0, StepMeasure(n, Truth(r0, n), true));
  }

  lemma {:induction false} AllWalked(c: Config, s: State, r0: State) returns (r: State)
    requires Leads(c, s, r0) && r0.idx.Valid() && r0.task.Measuring? && r0.reqs == map[]
    ensures Alone(c, s, r0, r) && r.task.Setting?
    decreases |r0.task.todo|
  {
    if r0.task.todo == {} {
      r := Go(c, s, r0, StepMeasured);
    } else {
      var n :| n in r0.task.todo;
      var m := Walked(c, s, r0, n);
      r := AllWalked(c, s, m);
    }
  }

  lemma SizeSet(c: Config, s: State, r0: State, n: string) returns (r: State)
    requires Leads(c, s, r0) && r0.idx.Valid() && r0.task.Setting? && n in r0.task.done
    ensures Leads(c, s, r) && r.idx.Valid() && r.reqs == r0.reqs && r.permit == r0.permit
    ensures r.task == Setting(r0.task.done - {n})
  {
    r := Go(c, s, r0, StepSetSize(n));
  }

  lemma {:induction false} AllSet(c: Config, s: State, r0: State) returns (r: State)
    requires Leads(c, s, r0) && r0.idx.Valid() && r0.task.Setting? && r0.reqs == map[]
    ensures Alone(c, s, r0, r) && r.task.BeforeTakeVictims?
    decreases |r0.task.done|
  {
    if r0.task.done == map[] {
      r := Go(c, s, r0, StepSizesSet);
    } else {
      var n :| n in r0.task.done;
      var m := SizeSet(c, s, r0, n);
      assert |m.task.done| < |r0.task.done| by { assert m.task.done.Keys == r0.task.done.Keys - {n}; }
      r := AllSet(c, s, m);
    }
  }

  /** One victim, whichever kind it is. */
  lemma Unlinked(c: Config, s: State, r0: State, n: string) returns (r: State)
    requires Leads(c, s, r0) && r0.idx.Valid() && r0.task.Evicting? && n in r0.task.queue && c.blob(n)
    ensures Leads(c, s, r) && r.idx.Valid() && r.reqs == r0.reqs && r.permit == r0.permit
    ensures r.task == Evicting(r0.task.queue - {n}) && n !in r.disk
  {
    r := Go(c, s, r0, StepUnlinkBlob(n, true));
  }

  lemma TakenAway(c: Config, s: State, r0: State, n: string, queue: set<string>) returns (r: State)
    requires Leads(c, s, r0) && r0.idx.Valid() && r0.task == EvictHolding(n, queue)
    ensures Leads(c, s, r) && r.idx.Valid() && r.reqs == r0.reqs && r.permit == r0.permit && n !in r.disk
    ensures r.task == Evicting(queue) || r.task == EvictRemoving(n, queue)
  {
    r := Go(c, s, r0, StepEvictMirror(true));
  }

  lemma TrashGone(c: Config, s: State, r0: State, n: string, queue: set<string>) returns (r: State)
    requires Leads(c, s, r0) && r0.idx.Valid() && r0.task == EvictRemoving(n, queue)
    ensures Leads(c, s, r) && r.idx.Valid() && r.reqs == r0.reqs && r.permit == r0.permit && r.disk == r0.disk
    ensures r.task == Evicting(queue)
  {
    r := Go(c, s, r0, StepTrashRemoved(0));
  }

  lemma MirrorGone(c: Config, s: State, r0: State, n: string, queue: set<string>) returns (r: State)
    requires Leads(c, s, r0) && r0.idx.Valid() && r0.task == EvictHolding(n, queue)
    ensures Leads(c, s, r) && r.idx.Valid() && r.reqs == r0.reqs && r.permit == r0.permit && n !in r.disk
    ensures r.task == Evicting(queue)
  {
    r := TakenAway(c, s, r0, n, queue);
    if r.task.EvictRemoving? { r := TrashGone(c, s, r, n, queue); }
  }

  lemma VictimCanGo(c: Config, s: State, r0: State, n: string) returns (r: State)
    requires Leads(c, s, r0) && r0.idx.Valid() && r0.task.Evicting? && n in r0.task.queue && r0.reqs == map[]
    ensures Leads(c, s, r) && r.idx.Valid() && r.reqs == map[] && r.permit == r0.permit
    ensures r.task == Evicting(r0.task.queue - {n}) && n !in r.disk
  {
    if c.blob(n) {
      r := Unlinked(c, s, r0, n);
    } else {
      r := Go(c, s, r0, StepEvictLock(n));
      r := MirrorGone(c, s, r, n, r0.task.queue - {n});
    }
  }

  lemma {:induction false} AllEvicted(c: Config, s: State, r0: State) returns (r: State)
    requires Leads(c, s, r0) && r0.idx.Valid() && r0.task.Evicting? && r0.reqs == map[]
    ensures Alone(c, s, r0, r) && r.task.Waiting?
    decreases |r0.task.queue|
  {
    if r0.task.queue == {} {
      r := Go(c, s, r0, StepEvicted);
    } else {
      var n :| n in r0.task.queue;
      var m := VictimCanGo(c, s, r0, n);
      r := AllEvicted(c, s, m);
    }
  }

  lemma VictimsTaken(c: Config, s: State, r0: State) returns (r: State)
    requires Leads(c, s, r0) && r0.idx.Valid() && r0.task.BeforeTakeVictims?
    ensures Leads(c, s, r) && r.idx.Valid() && r.reqs == r0.reqs && r.permit == r0.permit && r.task.Evicting?
  {
    r := Go(c, s, r0, StepTakeVictims);
  }

  lemma DirtyTaken(c: Config, s: State, r0: State) returns (r: State)
    requires Leads(c, s, r0) && r0.idx.Valid() && r0.task.BeforeTakeDirty?
    ensures Leads(c, s, r) && r.idx.Valid() && r.reqs == r0.reqs && r.permit == r0.permit && r.task.Measuring?
  {
    r := Go(c, s, r0, StepTakeDirty);
  }

  /** A pass from its start to its end. */
  lemma PassCanEnd(c: Config, s: State, r0: State) returns (r: State)
    requires Leads(c, s, r0) && r0.idx.Valid() && r0.task.BeforeTakeDirty? && r0.reqs == map[]
    ensures Alone(c, s, r0, r) && r.task.Waiting?
  {
    r := DirtyTaken(c, s, r0);
    r := AllWalked(c, s, r);
    r := AllSet(c, s, r);
    r := VictimsTaken(c, s, r);
    r := AllEvicted(c, s, r);
  }

  lemma Looked(c: Config, s: State, r0: State, n: string) returns (r: State)
    requires Leads(c, s, r0) && r0.idx.Valid() && r0.task.Stating? && n in r0.task.todo
    ensures Leads(c, s, r) && r.idx.Valid() && r.reqs == r0.reqs && r.permit == r0.permit
    ensures r.task.Stating? && r.task.todo == r0.task.todo - {n}
  {
    r := Go(c, s, r0, StepStat(n, n !in r0.disk));
  }

  lemma {:induction false} AllLooked(c: Config, s: State, r0: State) returns (r: State)
    requires Leads(c, s, r0) && r0.idx.Valid() && r0.task.Stating? && r0.reqs == map[]
    ensures Alone(c, s, r0, r) && r.task.BeforeDrop?
    decreases |r0.task.todo|
  {
    if r0.task.todo == {} {
      r := Go(c, s, r0, StepStatDone);
    } else {
      var n :| n in r0.task.todo;
      var m := Looked(c, s, r0, n);
      r := AllLooked(c, s, m);
    }
  }

  lemma Dropped(c: Config, s: State, r0: State) returns (r: State)
    requires Leads(c, s, r0) && r0.idx.Valid() && r0.task.BeforeDrop?
    ensures Leads(c, s, r) && r.idx.Valid() && r.reqs == r0.reqs && r.permit == r0.permit && r.task.BeforeTakeDirty?
  {
    r := Go(c, s, r0, StepDrop);
  }

  lemma Snapped(c: Config, s: State, r0: State) returns (r: State)
    requires Leads(c, s, r0) && r0.idx.Valid() && r0.task.BeforeSnapshot?
    ensures Leads(c, s, r) && r.idx.Valid() && r.reqs == r0.reqs && r.permit == r0.permit && r.task.Stating?
  {
    r := Go(c, s, r0, StepSnapshot);
  }

  /** From wherever the evictor is. */
  lemma EvictorCanWait(c: Config, s: State, r0: State) returns (r: State)
    requires Leads(c, s, r0) && r0.idx.Valid() && r0.reqs == map[] && !r0.task.Stopped?
    ensures Alone(c, s, r0, r) && r.task.Waiting?
  {
    r := r0;
    if r.task.BeforeSnapshot? { r := Snapped(c, s, r); }
    if r.task.Stating? { r := AllLooked(c, s, r); }
    if r.task.BeforeDrop? { r := Dropped(c, s, r); }
    if r.task.BeforeTakeDirty? {
      r := PassCanEnd(c, s, r);
    } else {
      r := PassCanFinish(c, s, r);
    }
  }

  /** From the middle of a pass. */
  lemma PassCanFinish(c: Config, s: State, r0: State) returns (r: State)
    requires Leads(c, s, r0) && r0.idx.Valid() && r0.reqs == map[] && !r0.task.Stopped? && !BeforeDirty(r0.task)
    ensures Alone(c, s, r0, r) && r.task.Waiting?
  {
    r := r0;
    if r.task.Measuring? { r := AllWalked(c, s, r); }
    if r.task.Setting? { r := AllSet(c, s, r); }
    if r.task.BeforeTakeVictims? { r := VictimsTaken(c, s, r); }
    if r.task.EvictHolding? { r := MirrorGone(c, s, r, r.task.name, r.task.queue); }
    if r.task.EvictRemoving? { r := TrashGone(c, s, r, r.task.name, r.task.queue); }
    if r.task.Evicting? { r := AllEvicted(c, s, r); }
  }

  lemma PermitUsed(c: Config, s: State, r0: State) returns (r: State)
    requires Leads(c, s, r0) && r0.idx.Valid() && r0.task.Waiting? && r0.permit
    ensures Leads(c, s, r) && r.idx.Valid() && r.reqs == r0.reqs && !r.permit && r.task.BeforeTakeDirty?
  {
    r := Go(c, s, r0, StepWoken);
  }

  // ---------------------------------------------------------------------------------
  // Rest
  // ---------------------------------------------------------------------------------

  /** From every state of every run, as long as the evictor has not been stopped, there is a way to
      rest; and there nothing is dirty and the total is within the cap. */
  lemma EveryRunCanComeToRest(c: Config, s: State) returns (r: State)
    requires Inv(c, s) && !s.task.Stopped?
    ensures Leads(c, s, r) && AtRest(r) && r.idx.dirty == {} && r.idx.total <= c.cap
  {
    Stay(c, s);
    r := RequestsCanEnd(c, s, s);
    r := EvictorCanWait(c, s, r);
    if r.permit {
      r := PermitUsed(c, s, r);
      r := PassCanEnd(c, s, r);
    }
    RestIsClean(c, s, r);
  }

  lemma RestIsClean(c: Config, s: State, r: State)
    requires Inv(c, s) && Leads(c, s, r) && AtRest(r)
    ensures r.idx.dirty == {} && r.idx.total <= c.cap
  {
    var steps :| After(c, s, steps) == Reached(r);
    InvAlways(c, s, steps);
  }

  // ---------------------------------------------------------------------------------
  // Requests can do their work
  // ---------------------------------------------------------------------------------

  lemma Acquired(c: Config, s: State, n: string) returns (r: State)
    requires s.idx.Valid() && !c.blob(n) && !Locked(s, n)
    ensures Leads(c, s, r) && r == s.(reqs := s.reqs[n := Pulling])
  {
    Stay(c, s);
    r := Go(c, s, s, StepAcquire(n));
  }

  lemma StagedAt(c: Config, s: State, r0: State, n: string, size: u64) returns (r: State)
    requires Leads(c, s, r0) && r0.idx.Valid() && Holds(r0, n, Pulling)
    ensures Leads(c, s, r) && r == r0.(residue := r0.residue[Staging(n) := size])
  {
    r := Go(c, s, r0, StepStage(n, size));
  }

  lemma Published(c: Config, s: State, r0: State, n: string, size: u64) returns (r: State)
    requires Leads(c, s, r0) && r0.idx.Valid() && Holds(r0, n, Pulling) && n !in r0.disk
    ensures Leads(c, s, r) && r.idx == r0.idx && r.task == r0.task && r.permit == r0.permit
    ensures r.disk == r0.disk[n := size] && r.residue == r0.residue - {Staging(n)} && r.reqs == r0.reqs[n := MustMark]
  {
    r := Go(c, s, r0, StepCloneRename(n, size));
  }

  lemma Rewritten(c: Config, s: State, r0: State, n: string, size: u64) returns (r: State)
    requires Leads(c, s, r0) && r0.idx.Valid() && Holds(r0, n, Pulling) && n in r0.disk
    ensures Leads(c, s, r) && r.idx == r0.idx && r.task == r0.task && r.permit == r0.permit && r.residue == r0.residue
    ensures r.disk == r0.disk[n := size] && r.reqs == r0.reqs[n := MustMark]
  {
    r := Go(c, s, r0, StepWrite(n, size));
    r := Go(c, s, r, StepUpstreamOk(n));
  }

  lemma Reported(c: Config, s: State, r0: State, n: string) returns (r: State)
    requires Leads(c, s, r0) && r0.idx.Valid() && Holds(r0, n, MustMark)
    ensures Leads(c, s, r) && r.idx == Index.MarkChanged(r0.idx, n) && r.idx.Valid() && r.task == r0.task
    ensures r.disk == r0.disk && r.residue == r0.residue && r.reqs == r0.reqs[n := MustNotify]
  {
    r := Go(c, s, r0, StepMark(n));
  }

  lemma Signalled(c: Config, s: State, r0: State, n: string) returns (r: State)
    requires Leads(c, s, r0) && r0.idx.Valid() && Holds(r0, n, MustNotify)
    ensures Leads(c, s, r) && r.idx == r0.idx && r.task == r0.task && r.permit
    ensures r.disk == r0.disk && r.residue == r0.residue && r.reqs == r0.reqs - {n}
  {
    r := Go(c, s, r0, StepNotify(n));
    r := Go(c, s, r, StepRelease(n));
  }

  /** From the change on disk to the end of the request. */
  lemma SeenOff(c: Config, s: State, r0: State, n: string) returns (r: State)
    requires Leads(c, s, r0) && r0.idx.Valid() && Holds(r0, n, MustMark)
    ensures Leads(c, s, r) && r.idx == Index.MarkChanged(r0.idx, n) && r.task == r0.task && r.permit
    ensures r.disk == r0.disk && r.residue == r0.residue && r.reqs == r0.reqs - {n}
  {
    r := Reported(c, s, r0, n);
    r := Signalled(c, s, r, n);
    assert r0.reqs[n := MustNotify] - {n} == r0.reqs - {n};
  }

  /** A mirror that is not there can be cloned: it ends up on disk at its size, reported to the index
      as changed and just used, with the evictor notified, the staging directory gone and the lock
      free. */
  lemma MirrorCanBeCloned(c: Config, s: State, n: string, size: u64) returns (r: State)
    requires s.idx.Valid() && !c.blob(n) && !Locked(s, n) && n !in s.disk
    ensures Leads(c, s, r) && r.disk == s.disk[n := size] && r.idx == Index.MarkChanged(s.idx, n) && r.permit
    ensures r.reqs == s.reqs && r.task == s.task && r.residue == s.residue - {Staging(n)}
  {
    r := PublishedAnew(c, s, n, size);
    r := SeenOff(c, s, r, n);
    assert s.reqs[n := MustMark] - {n} == s.reqs;
  }

  lemma PublishedAnew(c: Config, s: State, n: string, size: u64) returns (r: State)
    requires s.idx.Valid() && !c.blob(n) && !Locked(s, n) && n !in s.disk
    ensures Leads(c, s, r) && r.idx == s.idx && r.task == s.task && r.disk == s.disk[n := size]
    ensures r.reqs == s.reqs[n := MustMark] && r.residue == s.residue - {Staging(n)}
  {
    r := Acquired(c, s, n);
    r := StagedAt(c, s, r, n, size);
    r := Published(c, s, r, n, size);
    assert r.reqs == s.reqs[n := MustMark] && r.residue == s.residue - {Staging(n)};
  }

  /** One that is there can be refreshed, with the same report. */
  lemma MirrorCanBeFetched(c: Config, s: State, n: string, size: u64) returns (r: State)
    requires s.idx.Valid() && !c.blob(n) && !Locked(s, n) && n in s.disk
    ensures Leads(c, s, r) && r.disk == s.disk[n := size] && r.idx == Index.MarkChanged(s.idx, n) && r.permit
    ensures r.reqs == s.reqs && r.task == s.task && r.residue == s.residue
  {
    r := Acquired(c, s, n);
    r := Rewritten(c, s, r, n, size);
    r := SeenOff(c, s, r, n);
    assert s.reqs[n := Pulling][n := MustMark] - {n} == s.reqs;
  }

  lemma Opened(c: Config, s: State, n: string, id: nat, size: u64) returns (r: State)
    requires s.idx.Valid() && c.blob(n) && !Locked(s, n) && n !in s.disk && Temp(id) !in s.residue
    ensures Leads(c, s, r)
    ensures r == s.(reqs := s.reqs[n := Downloading(id)], residue := s.residue[Temp(id) := size])
  {
    r := StoreStarted(c, s, n);
    r := Go(c, s, r, StepDownload(n, id, size));
  }

  lemma StoreStarted(c: Config, s: State, n: string) returns (r: State)
    requires s.idx.Valid() && c.blob(n) && !Locked(s, n) && n !in s.disk
    ensures Leads(c, s, r) && r == s.(reqs := s.reqs[n := Storing]) && r.idx.Valid()
  {
    Stay(c, s);
    r := Go(c, s, s, StepStartStore(n));
  }

  lemma Grown(c: Config, s: State, r0: State, n: string, size: u64) returns (r: State)
    requires Leads(c, s, r0) && r0.idx.Valid() && n in r0.reqs && r0.reqs[n].Downloading?
    ensures Leads(c, s, r) && r == r0.(residue := r0.residue[Temp(r0.reqs[n].id) := size])
  {
    r := Go(c, s, r0, StepChunk(n, size));
  }

  lemma Placed(c: Config, s: State, r0: State, n: string, size: u64) returns (r: State)
    requires Leads(c, s, r0) && r0.idx.Valid() && n in r0.reqs && r0.reqs[n].Downloading?
    ensures Leads(c, s, r) && r.idx == r0.idx && r.task == r0.task && r.disk == r0.disk[n := size]
    ensures r.residue == r0.residue - {Temp(r0.reqs[n].id)} && r.reqs == r0.reqs[n := MustRecord(size)]
  {
    r := Go(c, s, r0, StepStoreRename(n, size, true));
  }

  lemma Filed(c: Config, s: State, r0: State, n: string, size: u64) returns (r: State)
    requires Leads(c, s, r0) && r0.idx.Valid() && Holds(r0, n, MustRecord(size))
    ensures Leads(c, s, r) && r.idx == Index.RecordBlob(r0.idx, n, size) && r.task == r0.task && r.permit
    ensures r.disk == r0.disk && r.residue == r0.residue && r.reqs == r0.reqs - {n}
  {
    r := InIndex(c, s, r0, n);
    r := Awake(c, s, r, n);
    assert r.reqs == r0.reqs - {n};
  }

  lemma Awake(c: Config, s: State, r0: State, n: string) returns (r: State)
    requires Leads(c, s, r0) && r0.idx.Valid() && Holds(r0, n, MustWake)
    ensures Leads(c, s, r) && r.idx == r0.idx && r.task == r0.task && r.permit
    ensures r.disk == r0.disk && r.residue == r0.residue && r.reqs == r0.reqs - {n}
  {
    r := Go(c, s, r0, StepWake(n));
  }

  /** An object that is not there can be stored, by way of a temporary file: it ends up on disk and in
      the index at its size, with the evictor notified, the file gone and the lock free. */
  lemma ObjectCanBeStored(c: Config, s: State, n: string, id: nat, size: u64) returns (r: State)
    requires s.idx.Valid() && c.blob(n) && !Locked(s, n) && n !in s.disk && Temp(id) !in s.residue
    ensures Leads(c, s, r) && r.disk == s.disk[n := size] && r.idx == Index.RecordBlob(s.idx, n, size) && r.permit
    ensures r.reqs == s.reqs && r.task == s.task && r.residue == s.residue
  {
    r := PlacedAnew(c, s, n, id, size);
    r := Filed(c, s, r, n, size);
    assert r.reqs == s.reqs;
  }

  lemma PlacedAnew(c: Config, s: State, n: string, id: nat, size: u64) returns (r: State)
    requires s.idx.Valid() && c.blob(n) && !Locked(s, n) && n !in s.disk && Temp(id) !in s.residue
    ensures Leads(c, s, r) && r.idx == s.idx && r.task == s.task && r.disk == s.disk[n := size]
    ensures r.reqs == s.reqs[n := MustRecord(size)] && r.residue == s.residue
  {
    r := Opened(c, s, n, id, 0);
    r := Grown(c, s, r, n, size);
    r := Placed(c, s, r, n, size);
    assert r.reqs == s.reqs[n := MustRecord(size)] && r.residue == s.residue;
  }
}
