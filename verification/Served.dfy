/** From wherever a run of `Mirror` stands, a request that holds its lock can be served, and one that
    waits for it can get it: no decision leads into a dead end. */
module Served {
  import opened Common
  import opened Mirror

  /** Request `t` stands at `pc` in `r`, and of the rest of `s` only its mirror, staging directory and
      stamp may have changed. */
  ghost predicate Stands(ttl: Time, s: State, r: State, t: nat, pc: Pc) {
    && Reachable(ttl, s, r) && t in s.threads && t in r.threads && r.threads[t].pc == pc
    && r.threads[t].name == s.threads[t].name && r.threads[t].wantFetch == s.threads[t].wantFetch
    && r.threads[t].slot == s.threads[t].slot && r.threads[t].slot in r.cells
    && r.slots == s.slots && r.clock == s.clock && r.evict == s.evict
  }

  lemma Stay(ttl: Time, s: State, t: nat)
    requires Inv(ttl, s) && t in s.threads && HoldsLock(s.threads[t].pc)
    ensures Stands(ttl, s, s, t, s.threads[t].pc)
  {
    assert After(ttl, s, []) == Reached(s);
    assert ThreadInv(ttl, s, t);
  }

  lemma StampTaken(ttl: Time, s: State, r0: State, t: nat) returns (r: State)
    requires Stands(ttl, s, r0, t, Holding)
    ensures Stands(ttl, s, r, t, Stamped) && r.mirrors == r0.mirrors
  {
    r := OneMore(ttl, s, r0, Stamp(t));
  }

  lemma HeadFound(ttl: Time, s: State, r0: State, t: nat) returns (r: State)
    requires Stands(ttl, s, r0, t, Stamped) && r0.threads[t].name in r0.mirrors
    ensures Stands(ttl, s, r, t, HeadSeen) && r.mirrors == r0.mirrors
  {
    r := OneMore(ttl, s, r0, SeeHead(t));
  }

  lemma CloneDecided(ttl: Time, s: State, r0: State, t: nat) returns (r: State)
    requires Stands(ttl, s, r0, t, Stamped) && r0.threads[t].name !in r0.mirrors
    ensures Stands(ttl, s, r, t, CloneClean) && r.mirrors == r0.mirrors
  {
    r := OneMore(ttl, s, r0, DecideClone(t));
  }

  lemma Cleaned(ttl: Time, s: State, r0: State, t: nat) returns (r: State)
    requires Stands(ttl, s, r0, t, CloneClean)
    ensures Stands(ttl, s, r, t, CloneReady) && r.mirrors == r0.mirrors
  {
    r := OneMore(ttl, s, r0, CleanStaging(t));
  }

  lemma Spawned(ttl: Time, s: State, r0: State, t: nat) returns (r: State)
    requires Stands(ttl, s, r0, t, CloneReady)
    ensures Stands(ttl, s, r, t, CloneRunning(r0.clock)) && r.mirrors == r0.mirrors
    ensures r.threads[t].name in r.staging && r.staging[r.threads[t].name].body.Partial?
  {
    r := OneMore(ttl, s, r0, SpawnClone(t));
  }

  /** An attempt that is under way can fail, and the next one starts over. */
  lemma Failed(ttl: Time, s: State, r0: State, t: nat) returns (r: State)
    requires t in r0.threads && r0.threads[t].pc.CloneRunning? && Stands(ttl, s, r0, t, r0.threads[t].pc)
    ensures Stands(ttl, s, r, t, CloneClean) && r.mirrors == r0.mirrors
  {
    r := OneMore(ttl, s, r0, CloneFail(t, false));
  }

  lemma Exited(ttl: Time, s: State, r0: State, t: nat) returns (r: State)
    requires Stands(ttl, s, r0, t, CloneRunning(r0.clock))
    requires r0.threads[t].name in r0.staging && r0.staging[r0.threads[t].name].body.Partial?
    ensures Stands(ttl, s, r, t, CloneDone(r0.clock)) && r.mirrors == r0.mirrors
    ensures r.threads[t].name in r.staging && r.staging[r.threads[t].name].body == Complete(r0.clock)
  {
    r := OneMore(ttl, s, r0, CloneOk(t, r0.clock));
  }

  lemma InPlace(ttl: Time, s: State, r0: State, t: nat) returns (r: State)
    requires t in r0.threads && r0.threads[t].pc.CloneDone? && Stands(ttl, s, r0, t, r0.threads[t].pc)
    requires r0.threads[t].name in r0.staging && r0.threads[t].name !in r0.mirrors
    ensures Stands(ttl, s, r, t, Renamed) && r.threads[t].name in r.mirrors
    ensures r.mirrors[r.threads[t].name] == r0.staging[r.threads[t].name]
  {
    r := OneMore(ttl, s, r0, RenameIntoPlace(t));
  }

  lemma StampStored(ttl: Time, s: State, r0: State, t: nat) returns (r: State)
    requires t in r0.threads && (r0.threads[t].pc.Renamed? || r0.threads[t].pc.FetchDone?)
    requires Stands(ttl, s, r0, t, r0.threads[t].pc)
    ensures Stands(ttl, s, r, t, Serving(if r0.threads[t].pc.Renamed? then Cloned else Fetched))
    ensures r.mirrors == r0.mirrors && r.cells[r.threads[t].slot].last == Some(r0.threads[t].started)
  {
    r := OneMore(ttl, s, r0, StoreStamp(t));
  }

  lemma FetchDecided(ttl: Time, s: State, r0: State, t: nat) returns (r: State)
    requires Stands(ttl, s, r0, t, HeadSeen)
    requires r0.threads[t].wantFetch && Expired(ttl, r0.cells[r0.threads[t].slot].last, r0.clock)
    ensures Stands(ttl, s, r, t, FetchReady) && r.mirrors == r0.mirrors
  {
    r := OneMore(ttl, s, r0, DecideFetch(t));
  }

  lemma CachedDecided(ttl: Time, s: State, r0: State, t: nat) returns (r: State)
    requires Stands(ttl, s, r0, t, HeadSeen)
    requires !(r0.threads[t].wantFetch && Expired(ttl, r0.cells[r0.threads[t].slot].last, r0.clock))
    ensures Stands(ttl, s, r, t, Serving(Cached(r0.clock))) && r.mirrors == r0.mirrors
  {
    r := OneMore(ttl, s, r0, DecideCached(t));
  }

  lemma FetchStarted(ttl: Time, s: State, r0: State, t: nat) returns (r: State)
    requires Stands(ttl, s, r0, t, FetchReady)
    ensures Stands(ttl, s, r, t, FetchRunning(r0.clock)) && r.mirrors == r0.mirrors
  {
    r := OneMore(ttl, s, r0, SpawnFetch(t));
  }

  lemma FetchExited(ttl: Time, s: State, r0: State, t: nat) returns (r: State)
    requires t in r0.threads && r0.threads[t].pc.FetchRunning? && r0.threads[t].pc.since <= r0.clock
    requires Stands(ttl, s, r0, t, r0.threads[t].pc)
    ensures Stands(ttl, s, r, t, FetchDone)
    ensures var n := r.threads[t].name;
            n in r0.mirrors && r0.mirrors[n].body.Complete? ==> n in r.mirrors && r.mirrors[n].body == Complete(r0.clock)
  {
    r := OneMore(ttl, s, r0, FetchOk(t, r0.clock));
  }

  /** A clone attempt, from its start to a mirror read just now. */
  lemma CloneServes(ttl: Time, s: State, r0: State, t: nat) returns (r: State)
    requires Stands(ttl, s, r0, t, CloneClean) && r0.threads[t].name !in r0.mirrors
    ensures Stands(ttl, s, r, t, Serving(Cloned))
    ensures r.threads[t].name in r.mirrors && r.mirrors[r.threads[t].name].body == Complete(s.clock)
  {
    r := Cleaned(ttl, s, r0, t);
    r := Spawned(ttl, s, r, t);
    r := Exited(ttl, s, r, t);
    r := InPlace(ttl, s, r, t);
    r := StampStored(ttl, s, r, t);
  }

  lemma FetchServes(ttl: Time, s: State, r0: State, t: nat) returns (r: State)
    requires Stands(ttl, s, r0, t, FetchReady)
    ensures Stands(ttl, s, r, t, Serving(Fetched))
  {
    r := FetchStarted(ttl, s, r0, t);
    r := FetchExited(ttl, s, r, t);
    r := StampStored(ttl, s, r, t);
  }

  lemma HeadServes(ttl: Time, s: State, r0: State, t: nat) returns (r: State)
    requires Stands(ttl, s, r0, t, HeadSeen)
    ensures t in r.threads && r.threads[t].pc.Serving? && Stands(ttl, s, r, t, r.threads[t].pc)
    ensures !s.threads[t].wantFetch ==> r.threads[t].pc.outcome.Cached? && r.mirrors == r0.mirrors
  {
    if r0.threads[t].wantFetch && Expired(ttl, r0.cells[r0.threads[t].slot].last, r0.clock) {
      r := FetchDecided(ttl, s, r0, t);
      r := FetchServes(ttl, s, r, t);
    } else {
      r := CachedDecided(ttl, s, r0, t);
    }
  }

  lemma StampedServes(ttl: Time, s: State, r0: State, t: nat) returns (r: State)
    requires Stands(ttl, s, r0, t, Stamped)
    ensures t in r.threads && r.threads[t].pc.Serving? && Stands(ttl, s, r, t, r.threads[t].pc)
    ensures r0.threads[t].name !in r0.mirrors ==> r.threads[t].pc.outcome.Cloned?
  {
    if r0.threads[t].name in r0.mirrors {
      r := HeadFound(ttl, s, r0, t);
      r := HeadServes(ttl, s, r, t);
    } else {
      r := CloneDecided(ttl, s, r0, t);
      r := CloneServes(ttl, s, r, t);
    }
  }

  /** In the middle of a clone, which nothing is in the way of. */
  lemma CloningServes(ttl: Time, s: State, t: nat) returns (r: State)
    requires Inv(ttl, s) && t in s.threads && IsCloning(s.threads[t].pc) && s.threads[t].name !in s.landed
    ensures t in r.threads && r.threads[t].pc.Serving? && Stands(ttl, s, r, t, r.threads[t].pc)
  {
    assert ThreadInv(ttl, s, t);
    Stay(ttl, s, t);
    match s.threads[t].pc
    case CloneClean => r := CloneServes(ttl, s, s, t);
    case CloneReady =>
      r := Spawned(ttl, s, s, t);
      r := Failed(ttl, s, r, t);
      r := CloneServes(ttl, s, r, t);
    case CloneRunning(since) =>
      r := Failed(ttl, s, s, t);
      r := CloneServes(ttl, s, r, t);
    case CloneDone(read) =>
      r := InPlace(ttl, s, s, t);
      r := StampStored(ttl, s, r, t);
  }

  /** From every state of every run, a request that holds its lock can be served, whatever it is at,
      unless a call left behind is in the way of its clone: from the cache, with the mirror as it is, if
      it found a HEAD and did not ask for a fetch; with a clone if there is no mirror. */
  lemma EveryHolderCanBeServed(ttl: Time, s: State, t: nat) returns (r: State)
    requires Inv(ttl, s) && t in s.threads && HoldsLock(s.threads[t].pc)
    requires IsCloning(s.threads[t].pc) ==> s.threads[t].name !in s.landed
    ensures t in r.threads && r.threads[t].pc.Serving? && Stands(ttl, s, r, t, r.threads[t].pc)
    ensures s.threads[t].pc.HeadSeen? && !s.threads[t].wantFetch ==>
              r.threads[t].pc.outcome.Cached? && r.mirrors == s.mirrors
    ensures s.threads[t].pc.Stamped? && s.threads[t].name !in s.mirrors ==> r.threads[t].pc.outcome.Cloned?
  {
    Stay(ttl, s, t);
    if IsCloning(s.threads[t].pc) {
      r := CloningServes(ttl, s, t);
    } else {
      r := OtherServes(ttl, s, t);
    }
  }

  lemma OtherServes(ttl: Time, s: State, t: nat) returns (r: State)
    requires Inv(ttl, s) && t in s.threads && HoldsLock(s.threads[t].pc) && !IsCloning(s.threads[t].pc)
    ensures t in r.threads && r.threads[t].pc.Serving? && Stands(ttl, s, r, t, r.threads[t].pc)
    ensures s.threads[t].pc.HeadSeen? && !s.threads[t].wantFetch ==>
              r.threads[t].pc.outcome.Cached? && r.mirrors == s.mirrors
    ensures s.threads[t].pc.Stamped? && s.threads[t].name !in s.mirrors ==> r.threads[t].pc.outcome.Cloned?
  {
    assert ThreadInv(ttl, s, t);
    Stay(ttl, s, t);
    match s.threads[t].pc
    case Holding =>
      r := StampTaken(ttl, s, s, t);
      r := StampedServes(ttl, s, r, t);
    case Stamped => r := StampedServes(ttl, s, s, t);
    case HeadSeen => r := HeadServes(ttl, s, s, t);
    case Renamed => r := StampStored(ttl, s, s, t);
    case FetchReady => r := FetchServes(ttl, s, s, t);
    case FetchRunning(since) =>
      r := FetchExited(ttl, s, s, t);
      r := StampStored(ttl, s, r, t);
    case FetchDone => r := StampStored(ttl, s, s, t);
    case Serving(outcome) => r := s;
  }

  /** Whoever holds a lock can let go of it at once. */
  lemma RequestCanLetGo(ttl: Time, s: State, t: nat, u: nat)
    requires Inv(ttl, s) && t in s.threads && s.threads[t].pc.Queued? && s.threads[t].slot in s.cells
    requires s.cells[s.threads[t].slot].holder == Request(u)
    ensures Enabled(ttl, s, Finish(u)) && Enabled(ttl, Next(ttl, s, Finish(u)), Lock(t))
  {
    assert CellInv(s, s.threads[t].slot) && ThreadInv(ttl, s, u);
  }

  lemma EvictorCanLetGo(ttl: Time, s: State, t: nat)
    requires Inv(ttl, s) && t in s.threads && s.threads[t].pc.Queued? && s.threads[t].slot in s.cells
    requires s.cells[s.threads[t].slot].holder == TheEvictor
    ensures EvictHolds(s.evict)
    ensures s.evict.EvictReady? ==> Enabled(ttl, s, EvictFail) && Enabled(ttl, Next(ttl, s, EvictFail), Lock(t))
  {
    assert CellInv(s, s.threads[t].slot);
  }

  lemma EvictorCanGoOn(ttl: Time, s: State, t: nat)
    requires Inv(ttl, s) && t in s.threads && s.threads[t].pc.Queued? && s.threads[t].slot in s.cells
    requires s.cells[s.threads[t].slot].holder == TheEvictor && s.evict.EvictHolding?
    ensures s.evict.name in s.mirrors ==> Enabled(ttl, s, EvictClearTrash(false))
    ensures s.evict.name !in s.mirrors ==>
              Enabled(ttl, s, EvictNoHead) && Enabled(ttl, Next(ttl, s, EvictNoHead), Lock(t))
  {
    assert CellInv(s, s.threads[t].slot);
  }

  /** So a request that waits can have its lock. */
  lemma EveryLockCanBeHad(ttl: Time, s: State, t: nat)
    requires Inv(ttl, s) && t in s.threads && s.threads[t].pc.Queued?
    ensures s.threads[t].slot in s.cells
    ensures var holder := s.cells[s.threads[t].slot].holder;
            && (holder.Free? ==> Enabled(ttl, s, Lock(t)))
            && (holder.Request? ==>
                  Enabled(ttl, s, Finish(holder.thread)) && Enabled(ttl, Next(ttl, s, Finish(holder.thread)), Lock(t)))
            && (holder.TheEvictor? ==> EvictHolds(s.evict))
  {
    assert ThreadInv(ttl, s, t);
    var holder := s.cells[s.threads[t].slot].holder;
    if holder.Request? {
      RequestCanLetGo(ttl, s, t, holder.thread);
    } else if holder.TheEvictor? {
      EvictorCanLetGo(ttl, s, t);
    }
  }

  /** Nothing is sure to work: at any time git may fail, a request may be dropped, with a call in flight
      or not, a call left behind may end without effect, a mirror may be deleted by hand, time may
      pass and the process may die. */
  lemma AnythingCanFail(ttl: Time, s: State, n: string, left: Leftover)
    ensures Enabled(ttl, s, Tick) && Enabled(ttl, s, Crash)
    ensures n in s.mirrors ==> Enabled(ttl, s, HandDelete(n))
    ensures left in s.leftover ==> Enabled(ttl, s, EndLate(left, false))
  {
  }

  lemma RequestCanBeDropped(ttl: Time, s: State, t: nat)
    requires Inv(ttl, s) && t in s.threads
    ensures Enabled(ttl, s, Finish(t))
    ensures s.threads[t].pc.CloneClean? || s.threads[t].pc.CloneDone? ==> Enabled(ttl, s, DropInFlight(t))
  {
    assert ThreadInv(ttl, s, t);
  }

  lemma AttemptCanFail(ttl: Time, s: State, t: nat)
    requires t in s.threads && s.threads[t].pc.CloneRunning?
    ensures Enabled(ttl, s, CloneFail(t, false)) && Enabled(ttl, s, CloneFail(t, true))
    ensures Next(ttl, s, CloneFail(t, true)).threads[t].pc == CloneClean
    ensures Next(ttl, s, CloneFail(t, false)).staging == s.staging - {s.threads[t].name}
  {
  }

  /** A failed fetch is tried again; it is not taken for a success. */
  lemma FailedFetchRetries(ttl: Time, s: State, t: nat)
    requires t in s.threads && s.threads[t].pc.FetchRunning?
    ensures Enabled(ttl, s, FetchFail(t)) && Next(ttl, s, FetchFail(t)).threads[t].pc == FetchReady
    ensures Next(ttl, s, FetchFail(t)).mirrors == s.mirrors
  {
  }

  /** A process that dies takes with it what was in memory - requests, slots and with them every stamp,
      calls still queued - and nothing of what is on disk. */
  lemma CrashForgets(ttl: Time, s: State)
    ensures var r := Next(ttl, s, Crash);
            && r.threads == map[] && r.slots == map[] && r.cells == map[] && r.evict == EvictIdle
            && r.leftover == multiset{} && r.lastPull == map[]
            && r.mirrors == s.mirrors && r.staging == s.staging && r.trash == s.trash && r.clock == s.clock
  {
  }

  /** Every new request gets as far as waiting. */
  lemma EveryCallQueues(ttl: Time, s: State, t: nat, n: string, wantFetch: bool, id: nat)
    requires Inv(ttl, s) && t !in s.threads && id !in s.cells
    ensures Enabled(ttl, s, Call(t, n, wantFetch))
    ensures var s1 := Next(ttl, s, Call(t, n, wantFetch));
            && Enabled(ttl, s1, GetSlot(t, id))
            && var s2 := Next(ttl, s1, GetSlot(t, id));
               && s2.threads[t].pc == Queued && s2.threads[t].name == n && s2.threads[t].wantFetch == wantFetch
               && n in s2.slots && s2.threads[t].slot == s2.slots[n] && s2.slots[n] in s2.cells
               && (n in s.slots ==> s2.slots == s.slots && s2.cells == s.cells)
               && (n !in s.slots ==> s2.cells == s.cells[id := Cell(Free, None)])
  {
  }
}
