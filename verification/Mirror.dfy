/** The per-repository protocol of src/git.rs: `slot`, `ensure_fresh`, `clone_mirror`, `fetch`,
    `run_upstream` and `evict`, with any number of concurrent requests, one evictor, a clock that
    may advance between any two steps, requests that fail or are dropped at any step, file-system
    calls that outlive the request that made them, mirrors deleted by hand, and a crash at any step.

    A mirror's `read` is the instant at which the pull that produced it read upstream: a lower
    bound on how recent its contents are. */
module Mirror {
  import opened Common

  type Time = nat

  /** The contents of a directory git writes: incomplete until `git clone` has exited with success,
      and again once a removal has been at work in it. */
  datatype Body = Partial | Bitten | Complete(read: Time)

  /** A directory, with the identity it keeps when it is renamed. */
  datatype Dir = Dir(inode: nat, body: Body)

  datatype Holder = Free | Request(thread: nat) | TheEvictor

  /** `RepoSlot`: the fetch lock and the stamp it guards. */
  datatype Cell = Cell(holder: Holder, last: Option<Time>)

  datatype Outcome = Cloned | Fetched | Cached(decided: Time)

  datatype Pc =
    | Called                       // `slot` comes next
    | Queued                       // waiting for the fetch lock
    | Holding                      // lock acquired; the stamp comes next
    | Stamped                      // `started` taken; the HEAD test comes next
    | HeadSeen                     // HEAD exists; the TTL test comes next
    | CloneClean                   // top of a clone attempt: empty the staging directory
    | CloneReady                   // staging emptied; spawn comes next
    | CloneRunning(since: Time)
    | CloneDone(read: Time)        // exited 0; rename comes next
    | Renamed                      // mirror in place; the stamp is stored next
    | FetchReady
    | FetchRunning(since: Time)
    | FetchDone                    // exited 0; the stamp is stored next
    | Serving(outcome: Outcome)    // outcome decided; wants are looked after, lock still held

  datatype Thread = Thread(name: string, wantFetch: bool, slot: nat, started: Time, pc: Pc)

  datatype Evict =
    | EvictIdle
    | EvictCalled(name: string)
    | EvictQueued(name: string, slot: nat)
    | EvictHolding(name: string, slot: nat)   // lock acquired; the HEAD test comes next
    | EvictReady(name: string, slot: nat)     // HEAD seen, old trash removed or not; rename next
    | EvictRemoving(name: string)             // renamed and unlocked; the slow delete remains

  /** A call handed to the blocking pool by a request that was dropped before it returned. It will
      still be carried out, at any later time and without the lock. A removal first opens the
      directory it finds and then deletes in it, entry by entry, wherever that directory goes. */
  datatype Leftover = LateRename(name: string) | LateClean(name: string) | Cleaning(name: string, inode: nat)

  /** `lastPull`, `gone` and `landed` record history: the stamp of the latest successful pull of a
      mirror that has been there ever since; the mirrors deleted by hand since they were last put
      in place; and the names for which, since a request last published a finished clone, a call
      left behind took effect on a clone under way or on the mirror itself. */
  datatype State = State(
    clock: Time,
    slots: map<string, nat>,
    cells: map<nat, Cell>,
    threads: map<nat, Thread>,
    evict: Evict,
    mirrors: map<string, Dir>,
    staging: map<string, Dir>,
    inodes: nat,
    trash: set<string>,
    leftover: multiset<Leftover>,
    lastPull: map<string, Time>,
    gone: set<string>,
    landed: set<string>)

  datatype Step =
    | Tick
    | Call(t: nat, name: string, wantFetch: bool)
    | GetSlot(t: nat, id: nat)
    | Lock(t: nat)
    | Stamp(t: nat)
    | SeeHead(t: nat)
    | DecideClone(t: nat)
    | DecideFetch(t: nat)
    | DecideCached(t: nat)
    | CleanStaging(t: nat)
    | SpawnClone(t: nat)
    | CloneOk(t: nat, read: Time)
    | CloneFail(t: nat, leftover: bool)
    | RenameIntoPlace(t: nat)
    | SpawnFetch(t: nat)
    | FetchOk(t: nat, read: Time)
    | FetchFail(t: nat)
    | StoreStamp(t: nat)
    | Finish(t: nat)               // Ok, Err or a dropped request: the lock guard goes away
    | DropInFlight(t: nat)         // dropped with a file-system call still to take effect
    | EvictCall(name: string)
    | EvictGetSlot(id: nat)
    | EvictLock
    | EvictNoHead
    | EvictClearTrash(removed: bool)
    | EvictRename
    | EvictFail
    | EvictRemoveTrash(removed: bool)
    | LandRename(name: string)     // a rename left behind is carried out
    | OpenLate(name: string)       // a removal left behind opens the staging directory
    | Bite(name: string, inode: nat)   // it deletes something there
    | EndLate(left: Leftover, removed: bool)   // such a call comes to its end
    | HandDelete(name: string)
    | Crash

  predicate HoldsLock(pc: Pc) { !pc.Called? && !pc.Queued? }

  predicate HasStamp(pc: Pc) { HoldsLock(pc) && !pc.Holding? }

  predicate IsCloning(pc: Pc) { pc.CloneClean? || pc.CloneReady? || pc.CloneRunning? || pc.CloneDone? }

  /** The staging directory is this request's own. */
  predicate Attempt(pc: Pc) { pc.CloneRunning? || pc.CloneDone? }

  ghost predicate UnderWay(s: State, n: string) {
    exists t :: t in s.threads && s.threads[t].name == n && Attempt(s.threads[t].pc)
  }

  predicate Has(dirs: map<string, Dir>, n: string, inode: nat) { n in dirs && dirs[n].inode == inode }

  /** The request goes, or went, to upstream for a mirror that was there. */
  predicate Fetches(pc: Pc) {
    pc.FetchReady? || pc.FetchRunning? || pc.FetchDone? || (pc.Serving? && pc.outcome.Fetched?)
  }

  predicate EvictHolds(e: Evict) { e.EvictHolding? || e.EvictReady? }

  /** The TTL test of `ensure_fresh`. */
  predicate Expired(ttl: Time, last: Option<Time>, now: Time) {
    last.None? || ttl == 0 || now - last.value >= ttl
  }

  predicate At(s: State, t: nat) { t in s.threads }

  predicate EnterStep(step: Step) { step.Call? || step.GetSlot? || step.Lock? || step.Stamp? }

  predicate LeaveStep(step: Step) { step.Finish? || step.DropInFlight? }

  predicate JudgeStep(step: Step) { step.SeeHead? || step.DecideClone? || step.DecideFetch? || step.DecideCached? }

  predicate DecideStep(step: Step) { JudgeStep(step) || step.StoreStamp? }

  predicate StageStep(step: Step) { step.CleanStaging? || step.SpawnClone? || step.CloneFail? }

  predicate PublishStep(step: Step) { step.CloneOk? || step.RenameIntoPlace? }

  predicate CloneStep(step: Step) { StageStep(step) || PublishStep(step) }

  predicate FetchStep(step: Step) { step.SpawnFetch? || step.FetchOk? || step.FetchFail? }

  predicate EvictEntryStep(step: Step) { step.EvictCall? || step.EvictGetSlot? || step.EvictLock? }

  predicate EvictWorkStep(step: Step) {
    step.EvictNoHead? || step.EvictClearTrash? || step.EvictRename? || step.EvictFail? || step.EvictRemoveTrash?
  }

  predicate EvictStep(step: Step) { EvictEntryStep(step) || EvictWorkStep(step) }

  predicate LateStep(step: Step) { step.LandRename? || step.OpenLate? || step.Bite? || step.EndLate? }

  predicate WorldStep(step: Step) { step.Tick? || step.HandDelete? || step.Crash? }

  predicate ThreadStep(step: Step) {
    EnterStep(step) || DecideStep(step) || CloneStep(step) || FetchStep(step) || LeaveStep(step)
  }

  ghost predicate EnterEnabled(ttl: Time, s: State, step: Step)
    requires EnterStep(step)
  {
    match step
    case Call(t, n, w) => t !in s.threads
    case GetSlot(t, id) => At(s, t) && s.threads[t].pc.Called? && id !in s.cells
    case Lock(t) =>
      At(s, t) && s.threads[t].pc.Queued? && s.threads[t].slot in s.cells && s.cells[s.threads[t].slot].holder.Free?
    case Stamp(t) => At(s, t) && s.threads[t].pc.Holding?
  }

  ghost predicate LeaveEnabled(ttl: Time, s: State, step: Step)
    requires LeaveStep(step)
  {
    match step
    case Finish(t) => At(s, t) && (HoldsLock(s.threads[t].pc) ==> s.threads[t].slot in s.cells)
    case DropInFlight(t) =>
      At(s, t) && (s.threads[t].pc.CloneClean? || s.threads[t].pc.CloneDone?) && s.threads[t].slot in s.cells
  }

  ghost predicate DecideEnabled(ttl: Time, s: State, step: Step)
    requires DecideStep(step)
  {
    match step
    case SeeHead(t) => At(s, t) && s.threads[t].pc.Stamped? && s.threads[t].name in s.mirrors
    case DecideClone(t) => At(s, t) && s.threads[t].pc.Stamped? && s.threads[t].name !in s.mirrors
    case DecideFetch(t) =>
      && At(s, t) && s.threads[t].pc.HeadSeen? && s.threads[t].wantFetch
      && s.threads[t].slot in s.cells && Expired(ttl, s.cells[s.threads[t].slot].last, s.clock)
    case DecideCached(t) =>
      && At(s, t) && s.threads[t].pc.HeadSeen? && s.threads[t].slot in s.cells
      && !(s.threads[t].wantFetch && Expired(ttl, s.cells[s.threads[t].slot].last, s.clock))
    case StoreStamp(t) =>
      At(s, t) && (s.threads[t].pc.Renamed? || s.threads[t].pc.FetchDone?) && s.threads[t].slot in s.cells
  }

  ghost predicate CloneEnabled(ttl: Time, s: State, step: Step)
    requires CloneStep(step)
  {
    match step
    case CleanStaging(t) => At(s, t) && s.threads[t].pc.CloneClean?
    case SpawnClone(t) => At(s, t) && s.threads[t].pc.CloneReady?
    case CloneFail(t, leftover) => At(s, t) && s.threads[t].pc.CloneRunning?
    case CloneOk(t, read) => At(s, t) && s.threads[t].pc.CloneRunning? && s.threads[t].pc.since <= read <= s.clock
    // a rename onto a directory that has contents fails
    case RenameIntoPlace(t) =>
      At(s, t) && s.threads[t].pc.CloneDone? && s.threads[t].name in s.staging && s.threads[t].name !in s.mirrors
  }

  ghost predicate FetchEnabled(ttl: Time, s: State, step: Step)
    requires FetchStep(step)
  {
    match step
    case SpawnFetch(t) => At(s, t) && s.threads[t].pc.FetchReady?
    case FetchOk(t, read) => At(s, t) && s.threads[t].pc.FetchRunning? && s.threads[t].pc.since <= read <= s.clock
    case FetchFail(t) => At(s, t) && s.threads[t].pc.FetchRunning?
  }

  ghost predicate EvictEnabled(ttl: Time, s: State, step: Step)
    requires EvictStep(step)
  {
    match step
    case EvictCall(n) => s.evict.EvictIdle?
    case EvictGetSlot(id) => s.evict.EvictCalled? && id !in s.cells
    case EvictLock => s.evict.EvictQueued? && s.evict.slot in s.cells && s.cells[s.evict.slot].holder.Free?
    case EvictNoHead => s.evict.EvictHolding? && s.evict.slot in s.cells && s.evict.name !in s.mirrors
    case EvictClearTrash(removed) => s.evict.EvictHolding? && s.evict.name in s.mirrors
    case EvictRename =>
      s.evict.EvictReady? && s.evict.slot in s.cells && s.evict.name in s.mirrors && s.evict.name !in s.trash
    case EvictFail => s.evict.EvictReady? && s.evict.slot in s.cells
    case EvictRemoveTrash(removed) => s.evict.EvictRemoving?
  }

  ghost predicate LateEnabled(ttl: Time, s: State, step: Step)
    requires LateStep(step)
  {
    match step
    case LandRename(n) => LateRename(n) in s.leftover && n in s.staging && n !in s.mirrors
    case OpenLate(n) => LateClean(n) in s.leftover && n in s.staging
    case Bite(n, inode) => Cleaning(n, inode) in s.leftover && (Has(s.staging, n, inode) || Has(s.mirrors, n, inode))
    case EndLate(left, removed) =>
      && left in s.leftover
      && (removed ==> left.Cleaning? && Has(s.staging, left.name, left.inode) && s.staging[left.name].body.Bitten?)
  }

  ghost predicate WorldEnabled(ttl: Time, s: State, step: Step)
    requires WorldStep(step)
  {
    match step
    case Tick => true
    case HandDelete(n) => n in s.mirrors
    case Crash => true
  }

  /** The guard of each step. */
  ghost predicate Enabled(ttl: Time, s: State, step: Step) {
    if EnterStep(step) then EnterEnabled(ttl, s, step)
    else if LeaveStep(step) then LeaveEnabled(ttl, s, step)
    else if DecideStep(step) then DecideEnabled(ttl, s, step)
    else if CloneStep(step) then CloneEnabled(ttl, s, step)
    else if FetchStep(step) then FetchEnabled(ttl, s, step)
    else if EvictStep(step) then EvictEnabled(ttl, s, step)
    else if LateStep(step) then LateEnabled(ttl, s, step)
    else WorldEnabled(ttl, s, step)
  }

  function Goto(s: State, t: nat, pc: Pc): State
    requires t in s.threads
  {
    s.(threads := s.threads[t := s.threads[t].(pc := pc)])
  }

  function SetHolder(s: State, slot: nat, h: Holder): State
    requires slot in s.cells
  {
    s.(cells := s.cells[slot := s.cells[slot].(holder := h)])
  }

  /** Every name has one slot of its own. */
  ghost predicate SlotsInjective(s: State) {
    && (forall n :: n in s.slots ==> s.slots[n] in s.cells)
    && (forall n, m :: n in s.slots && m in s.slots && s.slots[n] == s.slots[m] ==> n == m)
  }

  /** Get-or-insert: an existing slot is returned, never replaced, and a new one is nobody else's. */
  function WithSlot(s: State, n: string, id: nat): (r: State)
    ensures n in r.slots
    ensures id !in s.cells && SlotsInjective(s) ==> SlotsInjective(r)
  {
    if n in s.slots then s
    else s.(slots := s.slots[n := id], cells := s.cells[id := Cell(Free, None)])
  }

  /** Nothing about the locks has changed. */
  ghost predicate SameLocks(s: State, s': State) {
    s'.slots == s.slots && s'.cells == s.cells && s'.evict == s.evict
  }

  ghost function EnterNext(ttl: Time, s: State, step: Step): (r: State)
    requires EnterStep(step) && EnterEnabled(ttl, s, step)
    ensures r.mirrors == s.mirrors && r.evict == s.evict
  {
    match step
    case Call(t, n, w) => s.(threads := s.threads[t := Thread(n, w, 0, 0, Called)])
    case GetSlot(t, id) =>
      var th := s.threads[t];
      var s' := WithSlot(s, th.name, id);
      s'.(threads := s.threads[t := th.(slot := s'.slots[th.name], pc := Queued)])
    case Lock(t) => Goto(SetHolder(s, s.threads[t].slot, Request(t)), t, Holding)
    case Stamp(t) => s.(threads := s.threads[t := s.threads[t].(started := s.clock, pc := Stamped)])
  }

  ghost function LeaveNext(ttl: Time, s: State, step: Step): (r: State)
    requires LeaveStep(step) && LeaveEnabled(ttl, s, step)
    ensures r.mirrors == s.mirrors && r.evict == s.evict
  {
    match step
    case Finish(t) =>
      var s' := if HoldsLock(s.threads[t].pc) then SetHolder(s, s.threads[t].slot, Free) else s;
      s'.(threads := s.threads - {t})
    case DropInFlight(t) =>
      var th := s.threads[t];
      var left := if th.pc.CloneClean? then LateClean(th.name) else LateRename(th.name);
      SetHolder(s, th.slot, Free).(threads := s.threads - {t}, leftover := s.leftover + multiset{left})
  }

  ghost function DecideNext(ttl: Time, s: State, step: Step): (r: State)
    requires DecideStep(step) && DecideEnabled(ttl, s, step)
    ensures r.mirrors == s.mirrors && r.evict == s.evict
  {
    match step
    case SeeHead(t) => Goto(s, t, HeadSeen)
    case DecideClone(t) => Goto(s, t, CloneClean)
    case DecideFetch(t) => Goto(s, t, FetchReady)
    case DecideCached(t) => Goto(s, t, Serving(Cached(s.clock)))
    case StoreStamp(t) =>
      var th := s.threads[t];
      var s' := s.(
        cells := s.cells[th.slot := s.cells[th.slot].(last := Some(th.started))],
        lastPull := if th.name in s.mirrors then s.lastPull[th.name := th.started] else s.lastPull);
      Goto(s', t, Serving(if th.pc.Renamed? then Cloned else Fetched))
  }

  ghost function CloneNext(ttl: Time, s: State, step: Step): (r: State)
    requires CloneStep(step) && CloneEnabled(ttl, s, step)
    ensures SameLocks(s, r)
  {
    match step
    case CleanStaging(t) => Goto(s.(staging := s.staging - {s.threads[t].name}), t, CloneReady)
    case SpawnClone(t) =>
      Goto(s.(staging := s.staging[s.threads[t].name := Dir(s.inodes, Partial)], inodes := s.inodes + 1),
           t, CloneRunning(s.clock))
    case CloneFail(t, leftover) =>
      Goto(if leftover then s else s.(staging := s.staging - {s.threads[t].name}), t, CloneClean)
    case CloneOk(t, read) =>
      var n := s.threads[t].name;
      Goto(if n in s.staging && s.staging[n].body.Partial? then
             s.(staging := s.staging[n := s.staging[n].(body := Complete(read))])
           else s,
           t, CloneDone(read))
    case RenameIntoPlace(t) =>
      var n := s.threads[t].name;
      Goto(s.(mirrors := s.mirrors[n := s.staging[n]], staging := s.staging - {n}, gone := s.gone - {n},
              landed := if s.staging[n].body.Complete? then s.landed - {n} else s.landed),
           t, Renamed)
  }

  ghost function FetchNext(ttl: Time, s: State, step: Step): (r: State)
    requires FetchStep(step) && FetchEnabled(ttl, s, step)
    ensures SameLocks(s, r)
  {
    match step
    case SpawnFetch(t) => Goto(s, t, FetchRunning(s.clock))
    case FetchOk(t, read) =>
      var n := s.threads[t].name;
      Goto(if n in s.mirrors && s.mirrors[n].body.Complete? then
             s.(mirrors := s.mirrors[n := s.mirrors[n].(body := Complete(read))])
           else s,
           t, FetchDone)
    case FetchFail(t) => Goto(s, t, FetchReady)
  }

  ghost function EvictNext(ttl: Time, s: State, step: Step): State
    requires EvictStep(step) && EvictEnabled(ttl, s, step)
  {
    match step
    case EvictCall(n) => s.(evict := EvictCalled(n))
    case EvictGetSlot(id) =>
      var s' := WithSlot(s, s.evict.name, id);
      s'.(evict := EvictQueued(s.evict.name, s'.slots[s.evict.name]))
    case EvictLock =>
      SetHolder(s, s.evict.slot, TheEvictor).(evict := EvictHolding(s.evict.name, s.evict.slot))
    case EvictNoHead => SetHolder(s, s.evict.slot, Free).(evict := EvictIdle)
    case EvictClearTrash(removed) =>
      s.(trash := if removed then s.trash - {s.evict.name} else s.trash,
         evict := EvictReady(s.evict.name, s.evict.slot))
    case EvictRename =>
      var n := s.evict.name;
      SetHolder(s, s.evict.slot, Free).(
        mirrors := s.mirrors - {n}, trash := s.trash + {n}, lastPull := s.lastPull - {n}, evict := EvictRemoving(n))
    case EvictFail => SetHolder(s, s.evict.slot, Free).(evict := EvictIdle)
    case EvictRemoveTrash(removed) =>
      s.(trash := if removed then s.trash - {s.evict.name} else s.trash, evict := EvictIdle)
  }

  ghost function LateNext(ttl: Time, s: State, step: Step): (r: State)
    requires LateStep(step) && LateEnabled(ttl, s, step)
    ensures r.threads == s.threads && SameLocks(s, r)
  {
    match step
    case LandRename(n) =>
      s.(mirrors := s.mirrors[n := s.staging[n]], staging := s.staging - {n}, gone := s.gone - {n},
         leftover := s.leftover - multiset{LateRename(n)}, landed := s.landed + {n})
    case OpenLate(n) =>
      s.(leftover := s.leftover - multiset{LateClean(n)} + multiset{Cleaning(n, s.staging[n].inode)})
    case Bite(n, inode) =>
      s.(staging := if Has(s.staging, n, inode) then s.staging[n := Dir(inode, Bitten)] else s.staging,
         mirrors := if Has(s.mirrors, n, inode) then s.mirrors[n := Dir(inode, Bitten)] else s.mirrors,
         landed := if Has(s.mirrors, n, inode) || UnderWay(s, n) then s.landed + {n} else s.landed)
    case EndLate(left, removed) =>
      s.(leftover := s.leftover - multiset{left}, staging := if removed then s.staging - {left.name} else s.staging)
  }

  ghost function WorldNext(ttl: Time, s: State, step: Step): (r: State)
    requires WorldStep(step) && WorldEnabled(ttl, s, step)
    ensures step.Crash? || (r.threads == s.threads && SameLocks(s, r))
  {
    match step
    case Tick => s.(clock := s.clock + 1)
    case HandDelete(n) => s.(mirrors := s.mirrors - {n}, lastPull := s.lastPull - {n}, gone := s.gone + {n})
    case Crash =>
      s.(slots := map[], cells := map[], threads := map[], evict := EvictIdle, leftover := multiset{}, lastPull := map[])
  }

  ghost function Next(ttl: Time, s: State, step: Step): State
    requires Enabled(ttl, s, step)
  {
    if EnterStep(step) then EnterNext(ttl, s, step)
    else if LeaveStep(step) then LeaveNext(ttl, s, step)
    else if DecideStep(step) then DecideNext(ttl, s, step)
    else if CloneStep(step) then CloneNext(ttl, s, step)
    else if FetchStep(step) then FetchNext(ttl, s, step)
    else if EvictStep(step) then EvictNext(ttl, s, step)
    else if LateStep(step) then LateNext(ttl, s, step)
    else WorldNext(ttl, s, step)
  }

  // ---------------------------------------------------------------------------------
  // Invariants
  // ---------------------------------------------------------------------------------

  ghost predicate ReadSince(s: State, n: string, t: Time) {
    n in s.mirrors ==> s.mirrors[n].body.Complete? && t <= s.mirrors[n].body.read
  }

  /** A visible mirror is complete, and read upstream no earlier than the stamp its slot holds. */
  ghost predicate NameInv(s: State, n: string) {
    && (n in s.mirrors && n !in s.landed ==> s.mirrors[n].body.Complete? && s.mirrors[n].body.read <= s.clock)
    && (n in s.slots && s.slots[n] in s.cells && s.cells[s.slots[n]].last.Some? ==>
          var stamp := s.cells[s.slots[n]].last.value;
          stamp <= s.clock && (n !in s.landed ==> ReadSince(s, n, stamp)))
    && (n in s.lastPull ==>
          && n in s.mirrors && n in s.slots && s.slots[n] in s.cells
          && s.cells[s.slots[n]].last == Some(s.lastPull[n]))
  }

  /** What an attempt's staging directory holds if nobody interferes. */
  ghost function Expected(pc: Pc): Body
    requires Attempt(pc)
  {
    if pc.CloneRunning? then Partial else Complete(pc.read)
  }

  ghost predicate ThreadInv(ttl: Time, s: State, t: nat) {
    t in s.threads ==>
      var th := s.threads[t];
      var n := th.name;
      && (!th.pc.Called? ==> n in s.slots && s.slots[n] == th.slot && th.slot in s.cells)
      && (HoldsLock(th.pc) ==> s.cells[th.slot].holder == Request(t))
      && (HasStamp(th.pc) ==>
            && th.started <= s.clock
            && (s.cells[th.slot].last.Some? ==> s.cells[th.slot].last.value <= th.started))
      && (IsCloning(th.pc) && n !in s.landed ==> n !in s.mirrors)
      && (th.pc.CloneReady? ==> n !in s.staging)
      && (th.pc.CloneRunning? || th.pc.FetchRunning? ==> th.started <= th.pc.since <= s.clock)
      && (th.pc.CloneDone? ==> th.started <= th.pc.read <= s.clock)
      && (Attempt(th.pc) && n !in s.landed ==> n in s.staging && !s.staging[n].body.Bitten?)
      && (Attempt(th.pc) && n in s.staging ==> s.staging[n].body.Bitten? || s.staging[n].body == Expected(th.pc))
      && (th.pc.Renamed? || th.pc.FetchDone? ==> n in s.landed || ReadSince(s, n, th.started))
      && (th.pc.Serving? ==> JudgedByStamp(ttl, s, th))
      && (Fetches(th.pc) ==> th.wantFetch)
      && (th.pc.HeadSeen? || th.pc.Renamed? || th.pc.FetchReady? || th.pc.FetchRunning? || th.pc.FetchDone? || th.pc.Serving? ==>
            n in s.mirrors || n in s.gone)
  }

  /** What a request that serves has made sure of: it stored its own stamp, or it found one that was
      less than the TTL old when it decided. */
  ghost predicate JudgedByStamp(ttl: Time, s: State, th: Thread)
    requires th.pc.Serving? && th.slot in s.cells
  {
    var last := s.cells[th.slot].last;
    match th.pc.outcome
    case Cached(decided) =>
      th.started <= decided <= s.clock && (th.wantFetch ==> last.Some? && decided - last.value < ttl)
    case _ => last == Some(th.started)
  }

  ghost predicate EvictInv(s: State) {
    && (!s.evict.EvictIdle? && !s.evict.EvictCalled? && !s.evict.EvictRemoving? ==>
          s.evict.name in s.slots && s.slots[s.evict.name] == s.evict.slot && s.evict.slot in s.cells)
    && (EvictHolds(s.evict) ==> s.cells[s.evict.slot].holder == TheEvictor)
  }

  /** A lock that is taken is held by somebody who is there. */
  ghost predicate CellInv(s: State, k: nat) {
    k in s.cells ==>
      match s.cells[k].holder
      case Free => true
      case Request(t) => t in s.threads && HoldsLock(s.threads[t].pc) && s.threads[t].slot == k
      case TheEvictor => EvictHolds(s.evict) && s.evict.slot == k
  }

  ghost predicate Inv(ttl: Time, s: State) {
    && SlotsInjective(s) && EvictInv(s)
    && (forall k :: CellInv(s, k))
    && (forall n :: NameInv(s, n))
    && (forall t :: ThreadInv(ttl, s, t))
  }

  // The slot map and the locks, which most steps leave alone.

  lemma EnterKeepsLocks(ttl: Time, s: State, step: Step)
    requires EnterStep(step) && EnterEnabled(ttl, s, step)
    requires SlotsInjective(s) && EvictInv(s) && ThreadInv(ttl, s, step.t)
    ensures SlotsInjective(EnterNext(ttl, s, step)) && EvictInv(EnterNext(ttl, s, step))
  {
  }

  lemma LeaveKeepsLocks(ttl: Time, s: State, step: Step)
    requires LeaveStep(step) && LeaveEnabled(ttl, s, step)
    requires SlotsInjective(s) && EvictInv(s) && ThreadInv(ttl, s, step.t)
    ensures SlotsInjective(LeaveNext(ttl, s, step)) && EvictInv(LeaveNext(ttl, s, step))
  {
  }

  lemma DecideKeepsLocks(ttl: Time, s: State, step: Step)
    requires DecideStep(step) && DecideEnabled(ttl, s, step)
    requires SlotsInjective(s) && EvictInv(s) && ThreadInv(ttl, s, step.t)
    ensures SlotsInjective(DecideNext(ttl, s, step)) && EvictInv(DecideNext(ttl, s, step))
  {
  }

  lemma EvictKeepsLocks(ttl: Time, s: State, step: Step)
    requires EvictStep(step) && EvictEnabled(ttl, s, step)
    requires SlotsInjective(s) && EvictInv(s)
    ensures SlotsInjective(EvictNext(ttl, s, step)) && EvictInv(EvictNext(ttl, s, step))
  {
  }

  lemma SameLocksKept(s: State, s': State)
    requires SlotsInjective(s) && EvictInv(s) && SameLocks(s, s')
    ensures SlotsInjective(s') && EvictInv(s')
  {
  }

  // Who holds a lock.

  lemma EnterKeepsCell(ttl: Time, s: State, step: Step, k: nat)
    requires EnterStep(step) && EnterEnabled(ttl, s, step)
    requires SlotsInjective(s) && CellInv(s, k) && ThreadInv(ttl, s, step.t)
    ensures CellInv(EnterNext(ttl, s, step), k)
  {
  }

  lemma LeaveKeepsCell(ttl: Time, s: State, step: Step, k: nat)
    requires LeaveStep(step) && LeaveEnabled(ttl, s, step)
    requires SlotsInjective(s) && CellInv(s, k) && ThreadInv(ttl, s, step.t)
    ensures CellInv(LeaveNext(ttl, s, step), k)
  {
  }

  lemma DecideKeepsCell(ttl: Time, s: State, step: Step, k: nat)
    requires DecideStep(step) && DecideEnabled(ttl, s, step)
    requires SlotsInjective(s) && CellInv(s, k) && ThreadInv(ttl, s, step.t)
    ensures CellInv(DecideNext(ttl, s, step), k)
  {
  }

  lemma CloneKeepsCell(ttl: Time, s: State, step: Step, k: nat)
    requires CloneStep(step) && CloneEnabled(ttl, s, step)
    requires SlotsInjective(s) && CellInv(s, k) && ThreadInv(ttl, s, step.t)
    ensures CellInv(CloneNext(ttl, s, step), k)
  {
  }

  lemma FetchKeepsCell(ttl: Time, s: State, step: Step, k: nat)
    requires FetchStep(step) && FetchEnabled(ttl, s, step)
    requires SlotsInjective(s) && CellInv(s, k) && ThreadInv(ttl, s, step.t)
    ensures CellInv(FetchNext(ttl, s, step), k)
  {
  }

  lemma EvictKeepsCell(ttl: Time, s: State, step: Step, k: nat)
    requires EvictStep(step) && EvictEnabled(ttl, s, step)
    requires SlotsInjective(s) && CellInv(s, k) && EvictInv(s)
    ensures CellInv(EvictNext(ttl, s, step), k)
  {
  }

  lemma LateKeepsCell(ttl: Time, s: State, step: Step, k: nat)
    requires LateStep(step) && LateEnabled(ttl, s, step)
    requires SlotsInjective(s) && CellInv(s, k)
    ensures CellInv(LateNext(ttl, s, step), k)
  {
  }

  lemma WorldKeepsCell(ttl: Time, s: State, step: Step, k: nat)
    requires WorldStep(step) && WorldEnabled(ttl, s, step)
    requires SlotsInjective(s) && CellInv(s, k)
    ensures CellInv(WorldNext(ttl, s, step), k)
  {
  }

  // The facts about one name. A step of a thread changes only its own.

  lemma EnterKeepsName(ttl: Time, s: State, step: Step, n: string)
    requires EnterStep(step) && EnterEnabled(ttl, s, step)
    requires SlotsInjective(s) && NameInv(s, n) && ThreadInv(ttl, s, step.t)
    ensures NameInv(EnterNext(ttl, s, step), n)
  {
  }

  lemma LeaveKeepsName(ttl: Time, s: State, step: Step, n: string)
    requires LeaveStep(step) && LeaveEnabled(ttl, s, step)
    requires SlotsInjective(s) && NameInv(s, n) && ThreadInv(ttl, s, step.t)
    ensures NameInv(LeaveNext(ttl, s, step), n)
  {
  }

  lemma DecideKeepsName(ttl: Time, s: State, step: Step, n: string)
    requires DecideStep(step) && DecideEnabled(ttl, s, step)
    requires SlotsInjective(s) && NameInv(s, n) && ThreadInv(ttl, s, step.t)
    ensures NameInv(DecideNext(ttl, s, step), n)
  {
  }

  lemma CloneKeepsName(ttl: Time, s: State, step: Step, n: string)
    requires CloneStep(step) && CloneEnabled(ttl, s, step)
    requires SlotsInjective(s) && NameInv(s, n) && ThreadInv(ttl, s, step.t)
    ensures NameInv(CloneNext(ttl, s, step), n)
  {
  }

  lemma FetchKeepsName(ttl: Time, s: State, step: Step, n: string)
    requires FetchStep(step) && FetchEnabled(ttl, s, step)
    requires SlotsInjective(s) && NameInv(s, n) && ThreadInv(ttl, s, step.t)
    ensures NameInv(FetchNext(ttl, s, step), n)
  {
  }

  lemma EvictEntryKeepsName(ttl: Time, s: State, step: Step, n: string)
    requires EvictEntryStep(step) && EvictEnabled(ttl, s, step)
    requires SlotsInjective(s) && NameInv(s, n) && EvictInv(s)
    ensures NameInv(EvictNext(ttl, s, step), n)
  {
  }

  lemma EvictWorkKeepsName(ttl: Time, s: State, step: Step, n: string)
    requires EvictWorkStep(step) && EvictEnabled(ttl, s, step)
    requires SlotsInjective(s) && NameInv(s, n) && EvictInv(s)
    ensures NameInv(EvictNext(ttl, s, step), n)
  {
  }

  lemma LateKeepsName(ttl: Time, s: State, step: Step, n: string)
    requires LateStep(step) && LateEnabled(ttl, s, step)
    requires SlotsInjective(s) && NameInv(s, n)
    ensures NameInv(LateNext(ttl, s, step), n)
  {
  }

  lemma WorldKeepsName(ttl: Time, s: State, step: Step, n: string)
    requires WorldStep(step) && WorldEnabled(ttl, s, step)
    requires SlotsInjective(s) && NameInv(s, n)
    ensures NameInv(WorldNext(ttl, s, step), n)
  {
  }

  // The thread that acts.

  lemma EnterKeepsActor(ttl: Time, s: State, step: Step)
    requires EnterStep(step) && EnterEnabled(ttl, s, step) && ThreadInv(ttl, s, step.t)
    requires SlotsInjective(s) && (step.t in s.threads ==> NameInv(s, s.threads[step.t].name))
    ensures ThreadInv(ttl, EnterNext(ttl, s, step), step.t)
  {
  }

  lemma LeaveKeepsActor(ttl: Time, s: State, step: Step)
    requires LeaveStep(step) && LeaveEnabled(ttl, s, step) && ThreadInv(ttl, s, step.t)
    ensures ThreadInv(ttl, LeaveNext(ttl, s, step), step.t)
  {
  }

  lemma JudgeKeepsActor(ttl: Time, s: State, step: Step)
    requires JudgeStep(step) && DecideEnabled(ttl, s, step) && ThreadInv(ttl, s, step.t)
    requires SlotsInjective(s) && (step.t in s.threads ==> NameInv(s, s.threads[step.t].name))
    ensures ThreadInv(ttl, DecideNext(ttl, s, step), step.t)
  {
  }

  lemma StoreStampKeepsActor(ttl: Time, s: State, step: Step)
    requires step.StoreStamp? && DecideEnabled(ttl, s, step) && ThreadInv(ttl, s, step.t)
    requires SlotsInjective(s) && (step.t in s.threads ==> NameInv(s, s.threads[step.t].name))
    ensures ThreadInv(ttl, DecideNext(ttl, s, step), step.t)
  {
  }

  lemma StageKeepsActor(ttl: Time, s: State, step: Step)
    requires StageStep(step) && CloneEnabled(ttl, s, step) && ThreadInv(ttl, s, step.t)
    ensures ThreadInv(ttl, CloneNext(ttl, s, step), step.t)
  {
  }

  lemma PublishKeepsActor(ttl: Time, s: State, step: Step)
    requires PublishStep(step) && CloneEnabled(ttl, s, step) && ThreadInv(ttl, s, step.t)
    ensures ThreadInv(ttl, CloneNext(ttl, s, step), step.t)
  {
  }

  lemma FetchKeepsActor(ttl: Time, s: State, step: Step)
    requires FetchStep(step) && FetchEnabled(ttl, s, step) && ThreadInv(ttl, s, step.t)
    requires step.t in s.threads ==> NameInv(s, s.threads[step.t].name)
    ensures ThreadInv(ttl, FetchNext(ttl, s, step), step.t)
  {
  }

  // A thread that looks on: what it relies on is protected by its lock.

  /** Nothing that thread `t` relies on has changed from `s` to `s'`. */
  ghost predicate Undisturbed(s: State, s': State, t: nat)
    requires t in s.threads
  {
    var th := s.threads[t];
    var n := th.name;
    && t in s'.threads && s'.threads[t] == th
    && s.clock <= s'.clock
    && (!th.pc.Called? ==>
          && n in s.slots && n in s'.slots && s'.slots[n] == s.slots[n]
          && th.slot in s.cells && th.slot in s'.cells)
    && (HoldsLock(th.pc) ==> s'.cells[th.slot] == s.cells[th.slot] && DiskUndisturbed(s, s', n, Attempt(th.pc)))
  }

  /** A lock holder's view of the disk: what may change behind its back is what leftovers do. */
  ghost predicate DiskUndisturbed(s: State, s': State, n: string, attempt: bool) {
    && (n in s.landed ==> n in s'.landed)
    && (n in s'.staging ==> n in s.staging && (s'.staging[n] == s.staging[n] || s'.staging[n].body.Bitten?))
    && (n in s.mirrors || n in s.gone ==> n in s'.mirrors || n in s'.gone)
    && (n !in s'.landed && n in s'.mirrors ==> n in s.mirrors && s'.mirrors[n] == s.mirrors[n])
    && (n !in s'.landed && attempt && n in s.staging ==> n in s'.staging && s'.staging[n] == s.staging[n])
  }

  lemma UndisturbedKeepsThread(ttl: Time, s: State, s': State, t: nat)
    requires t in s.threads && ThreadInv(ttl, s, t) && Undisturbed(s, s', t)
    ensures ThreadInv(ttl, s', t)
  {
  }

  /** A thread that was not there is not there, and one that was has not been disturbed. */
  ghost predicate LeftAlone(s: State, s': State, t: nat) {
    if t in s.threads then Undisturbed(s, s', t) else t !in s'.threads
  }

  lemma EnterLeavesOthersAlone(ttl: Time, s: State, step: Step, t: nat)
    requires SlotsInjective(s) && ThreadInv(ttl, s, t)
    requires EnterStep(step) && EnterEnabled(ttl, s, step) && step.t != t && ThreadInv(ttl, s, step.t)
    ensures LeftAlone(s, EnterNext(ttl, s, step), t)
  {
  }

  lemma LeaveLeavesOthersAlone(ttl: Time, s: State, step: Step, t: nat)
    requires SlotsInjective(s) && ThreadInv(ttl, s, t)
    requires LeaveStep(step) && LeaveEnabled(ttl, s, step) && step.t != t && ThreadInv(ttl, s, step.t)
    ensures LeftAlone(s, LeaveNext(ttl, s, step), t)
  {
  }

  lemma DecideLeavesOthersAlone(ttl: Time, s: State, step: Step, t: nat)
    requires SlotsInjective(s) && ThreadInv(ttl, s, t)
    requires DecideStep(step) && DecideEnabled(ttl, s, step) && step.t != t && ThreadInv(ttl, s, step.t)
    ensures LeftAlone(s, DecideNext(ttl, s, step), t)
  {
  }

  lemma StageLeavesOthersAlone(ttl: Time, s: State, step: Step, t: nat)
    requires SlotsInjective(s) && ThreadInv(ttl, s, t)
    requires StageStep(step) && CloneEnabled(ttl, s, step) && step.t != t && ThreadInv(ttl, s, step.t)
    ensures LeftAlone(s, CloneNext(ttl, s, step), t)
  {
  }

  lemma PublishLeavesOthersAlone(ttl: Time, s: State, step: Step, t: nat)
    requires SlotsInjective(s) && ThreadInv(ttl, s, t)
    requires PublishStep(step) && CloneEnabled(ttl, s, step) && step.t != t && ThreadInv(ttl, s, step.t)
    ensures LeftAlone(s, CloneNext(ttl, s, step), t)
  {
  }

  lemma FetchLeavesOthersAlone(ttl: Time, s: State, step: Step, t: nat)
    requires SlotsInjective(s) && ThreadInv(ttl, s, t)
    requires FetchStep(step) && FetchEnabled(ttl, s, step) && step.t != t && ThreadInv(ttl, s, step.t)
    ensures LeftAlone(s, FetchNext(ttl, s, step), t)
  {
  }

  lemma EvictEntryLeavesOthersAlone(ttl: Time, s: State, step: Step, t: nat)
    requires SlotsInjective(s) && ThreadInv(ttl, s, t)
    requires EvictEntryStep(step) && EvictEnabled(ttl, s, step) && EvictInv(s)
    ensures LeftAlone(s, EvictNext(ttl, s, step), t)
  {
  }

  lemma EvictWorkLeavesOthersAlone(ttl: Time, s: State, step: Step, t: nat)
    requires SlotsInjective(s) && ThreadInv(ttl, s, t)
    requires EvictWorkStep(step) && EvictEnabled(ttl, s, step) && EvictInv(s)
    ensures LeftAlone(s, EvictNext(ttl, s, step), t)
  {
  }

  lemma LateLeavesOthersAlone(ttl: Time, s: State, step: Step, t: nat)
    requires LateStep(step) && LateEnabled(ttl, s, step)
    requires SlotsInjective(s) && ThreadInv(ttl, s, t)
    ensures LeftAlone(s, LateNext(ttl, s, step), t)
  {
  }

  lemma WorldLeavesOthersAlone(ttl: Time, s: State, step: Step, t: nat)
    requires SlotsInjective(s) && ThreadInv(ttl, s, t)
    requires WorldStep(step) && WorldEnabled(ttl, s, step) && !step.Crash?
    ensures LeftAlone(s, WorldNext(ttl, s, step), t)
  {
  }

  // All of it, one kind of step at a time.

  lemma EnterKeepsInv(ttl: Time, s: State, step: Step)
    requires Inv(ttl, s) && EnterStep(step) && EnterEnabled(ttl, s, step)
    ensures Inv(ttl, EnterNext(ttl, s, step))
  {
    var s' := EnterNext(ttl, s, step);
    assert ThreadInv(ttl, s, step.t);
    assert step.t in s.threads ==> NameInv(s, s.threads[step.t].name);
    EnterKeepsLocks(ttl, s, step);
    forall k ensures CellInv(s', k) {
      assert CellInv(s, k);
      EnterKeepsCell(ttl, s, step, k);
    }
    forall n ensures NameInv(s', n) {
      assert NameInv(s, n);
      EnterKeepsName(ttl, s, step, n);
    }
    forall t ensures ThreadInv(ttl, s', t) {
      assert ThreadInv(ttl, s, t);
      if t == step.t {
        EnterKeepsActor(ttl, s, step);
      } else {
        EnterLeavesOthersAlone(ttl, s, step, t);
        if t in s.threads { UndisturbedKeepsThread(ttl, s, s', t); }
      }
    }
  }

  lemma LeaveKeepsInv(ttl: Time, s: State, step: Step)
    requires Inv(ttl, s) && LeaveStep(step) && LeaveEnabled(ttl, s, step)
    ensures Inv(ttl, LeaveNext(ttl, s, step))
  {
    var s' := LeaveNext(ttl, s, step);
    assert ThreadInv(ttl, s, step.t);
    assert step.t in s.threads ==> NameInv(s, s.threads[step.t].name);
    LeaveKeepsLocks(ttl, s, step);
    forall k ensures CellInv(s', k) {
      assert CellInv(s, k);
      LeaveKeepsCell(ttl, s, step, k);
    }
    forall n ensures NameInv(s', n) {
      assert NameInv(s, n);
      LeaveKeepsName(ttl, s, step, n);
    }
    forall t ensures ThreadInv(ttl, s', t) {
      assert ThreadInv(ttl, s, t);
      if t == step.t {
        LeaveKeepsActor(ttl, s, step);
      } else {
        LeaveLeavesOthersAlone(ttl, s, step, t);
        if t in s.threads { UndisturbedKeepsThread(ttl, s, s', t); }
      }
    }
  }

  lemma DecideKeepsInv(ttl: Time, s: State, step: Step)
    requires Inv(ttl, s) && DecideStep(step) && DecideEnabled(ttl, s, step)
    ensures Inv(ttl, DecideNext(ttl, s, step))
  {
    var s' := DecideNext(ttl, s, step);
    assert ThreadInv(ttl, s, step.t);
    assert step.t in s.threads ==> NameInv(s, s.threads[step.t].name);
    DecideKeepsLocks(ttl, s, step);
    forall k ensures CellInv(s', k) {
      assert CellInv(s, k);
      DecideKeepsCell(ttl, s, step, k);
    }
    forall n ensures NameInv(s', n) {
      assert NameInv(s, n);
      DecideKeepsName(ttl, s, step, n);
    }
    forall t ensures ThreadInv(ttl, s', t) {
      assert ThreadInv(ttl, s, t);
      if t == step.t {
        if JudgeStep(step) {
          JudgeKeepsActor(ttl, s, step);
        } else {
          StoreStampKeepsActor(ttl, s, step);
        }
      } else {
        DecideLeavesOthersAlone(ttl, s, step, t);
        if t in s.threads { UndisturbedKeepsThread(ttl, s, s', t); }
      }
    }
  }

  lemma CloneKeepsInv(ttl: Time, s: State, step: Step)
    requires Inv(ttl, s) && CloneStep(step) && CloneEnabled(ttl, s, step)
    ensures Inv(ttl, CloneNext(ttl, s, step))
  {
    var s' := CloneNext(ttl, s, step);
    assert ThreadInv(ttl, s, step.t);
    assert step.t in s.threads ==> NameInv(s, s.threads[step.t].name);
    SameLocksKept(s, s');
    forall k ensures CellInv(s', k) {
      assert CellInv(s, k);
      CloneKeepsCell(ttl, s, step, k);
    }
    forall n ensures NameInv(s', n) {
      assert NameInv(s, n);
      CloneKeepsName(ttl, s, step, n);
    }
    forall t ensures ThreadInv(ttl, s', t) {
      assert ThreadInv(ttl, s, t);
      if t == step.t {
        if StageStep(step) {
          StageKeepsActor(ttl, s, step);
        } else {
          PublishKeepsActor(ttl, s, step);
        }
      } else {
        if StageStep(step) {
          StageLeavesOthersAlone(ttl, s, step, t);
        } else {
          PublishLeavesOthersAlone(ttl, s, step, t);
        }
        if t in s.threads { UndisturbedKeepsThread(ttl, s, s', t); }
      }
    }
  }

  lemma FetchKeepsInv(ttl: Time, s: State, step: Step)
    requires Inv(ttl, s) && FetchStep(step) && FetchEnabled(ttl, s, step)
    ensures Inv(ttl, FetchNext(ttl, s, step))
  {
    var s' := FetchNext(ttl, s, step);
    assert ThreadInv(ttl, s, step.t);
    assert step.t in s.threads ==> NameInv(s, s.threads[step.t].name);
    SameLocksKept(s, s');
    forall k ensures CellInv(s', k) {
      assert CellInv(s, k);
      FetchKeepsCell(ttl, s, step, k);
    }
    forall n ensures NameInv(s', n) {
      assert NameInv(s, n);
      FetchKeepsName(ttl, s, step, n);
    }
    forall t ensures ThreadInv(ttl, s', t) {
      assert ThreadInv(ttl, s, t);
      if t == step.t {
        FetchKeepsActor(ttl, s, step);
      } else {
        FetchLeavesOthersAlone(ttl, s, step, t);
        if t in s.threads { UndisturbedKeepsThread(ttl, s, s', t); }
      }
    }
  }

  lemma EvictKeepsInv(ttl: Time, s: State, step: Step)
    requires Inv(ttl, s) && EvictStep(step) && EvictEnabled(ttl, s, step)
    ensures Inv(ttl, EvictNext(ttl, s, step))
  {
    var s' := EvictNext(ttl, s, step);
    EvictKeepsLocks(ttl, s, step);
    forall k ensures CellInv(s', k) {
      assert CellInv(s, k);
      EvictKeepsCell(ttl, s, step, k);
    }
    forall n ensures NameInv(s', n) {
      assert NameInv(s, n);
      if EvictEntryStep(step) {
        EvictEntryKeepsName(ttl, s, step, n);
      } else {
        EvictWorkKeepsName(ttl, s, step, n);
      }
    }
    forall t ensures ThreadInv(ttl, s', t) {
      assert ThreadInv(ttl, s, t);
      if EvictEntryStep(step) {
        EvictEntryLeavesOthersAlone(ttl, s, step, t);
      } else {
        EvictWorkLeavesOthersAlone(ttl, s, step, t);
      }
      if t in s.threads { UndisturbedKeepsThread(ttl, s, s', t); }
    }
  }

  lemma LateKeepsInv(ttl: Time, s: State, step: Step)
    requires Inv(ttl, s) && LateStep(step) && LateEnabled(ttl, s, step)
    ensures Inv(ttl, LateNext(ttl, s, step))
  {
    var s' := LateNext(ttl, s, step);
    SameLocksKept(s, s');
    forall k ensures CellInv(s', k) {
      assert CellInv(s, k);
      LateKeepsCell(ttl, s, step, k);
    }
    forall n ensures NameInv(s', n) {
      assert NameInv(s, n);
      LateKeepsName(ttl, s, step, n);
    }
    forall t ensures ThreadInv(ttl, s', t) {
      assert ThreadInv(ttl, s, t);
      LateLeavesOthersAlone(ttl, s, step, t);
      if t in s.threads { UndisturbedKeepsThread(ttl, s, s', t); }
    }
  }

  lemma WorldKeepsInv(ttl: Time, s: State, step: Step)
    requires Inv(ttl, s) && WorldStep(step) && WorldEnabled(ttl, s, step) && !step.Crash?
    ensures Inv(ttl, WorldNext(ttl, s, step))
  {
    var s' := WorldNext(ttl, s, step);
    SameLocksKept(s, s');
    forall k ensures CellInv(s', k) {
      assert CellInv(s, k);
      WorldKeepsCell(ttl, s, step, k);
    }
    forall n ensures NameInv(s', n) {
      assert NameInv(s, n);
      WorldKeepsName(ttl, s, step, n);
    }
    forall t ensures ThreadInv(ttl, s', t) {
      assert ThreadInv(ttl, s, t);
      WorldLeavesOthersAlone(ttl, s, step, t);
      if t in s.threads { UndisturbedKeepsThread(ttl, s, s', t); }
    }
  }

  lemma CrashKeepsInv(ttl: Time, s: State)
    requires Inv(ttl, s)
    ensures Inv(ttl, WorldNext(ttl, s, Crash))
  {
    var s' := WorldNext(ttl, s, Crash);
    forall n ensures NameInv(s', n) { assert NameInv(s, n); }
  }

  lemma StepKeepsInv(ttl: Time, s: State, step: Step)
    requires Inv(ttl, s) && Enabled(ttl, s, step)
    ensures Inv(ttl, Next(ttl, s, step))
  {
    if EnterStep(step) {
      EnterKeepsInv(ttl, s, step);
    } else if LeaveStep(step) {
      LeaveKeepsInv(ttl, s, step);
    } else if DecideStep(step) {
      DecideKeepsInv(ttl, s, step);
    } else if CloneStep(step) {
      CloneKeepsInv(ttl, s, step);
    } else if FetchStep(step) {
      FetchKeepsInv(ttl, s, step);
    } else if EvictStep(step) {
      EvictKeepsInv(ttl, s, step);
    } else if LateStep(step) {
      LateKeepsInv(ttl, s, step);
    } else if step.Crash? {
      CrashKeepsInv(ttl, s);
    } else {
      WorldKeepsInv(ttl, s, step);
    }
  }

  // ---------------------------------------------------------------------------------
  // Runs
  // ---------------------------------------------------------------------------------

  /** A process start on a cache directory left by earlier runs: complete mirrors, any staging
      and trash leftovers, no slots yet. */
  ghost predicate Init(s: State) {
    && s.slots == map[] && s.cells == map[] && s.threads == map[] && s.evict == EvictIdle
    && s.leftover == multiset{} && s.lastPull == map[] && s.landed == {}
    && (forall n :: n in s.mirrors ==> s.mirrors[n].inode < s.inodes)
    && (forall n :: n in s.staging ==> s.staging[n].inode < s.inodes)
    && forall n :: n in s.mirrors ==> s.mirrors[n].body.Complete? && s.mirrors[n].body.read <= s.clock
  }

  /** The state after `steps`, or `Blocked` if one of them was not enabled. */
  ghost function After(ttl: Time, s: State, steps: seq<Step>): RunResult<State>
    decreases |steps|
  {
    if steps == [] then Reached(s)
    else if Enabled(ttl, s, steps[0]) then After(ttl, Next(ttl, s, steps[0]), steps[1..])
    else Blocked
  }

  lemma {:induction false} InvAlways(ttl: Time, s: State, steps: seq<Step>)
    requires Inv(ttl, s) && After(ttl, s, steps).Reached?
    ensures Inv(ttl, After(ttl, s, steps).state)
    decreases |steps|
  {
    if steps != [] {
      StepKeepsInv(ttl, s, steps[0]);
      InvAlways(ttl, Next(ttl, s, steps[0]), steps[1..]);
    }
  }

  /** The mirror of `n` holds less than the stamp of its slot promises. */
  ghost predicate Misdated(s: State, n: string) {
    && n in s.mirrors
    && (|| !s.mirrors[n].body.Complete?
        || (n in s.slots && s.slots[n] in s.cells && s.cells[s.slots[n]].last.Some?
            && s.mirrors[n].body.read < s.cells[s.slots[n]].last.value))
  }

  /** Bounded staleness: in every run, from the moment a request's outcome is decided until it
      lets go of the lock, the mirror it will serve is there, unless somebody deleted it by hand;
      and if it is not misdated, it is complete and was read from upstream no earlier than the stamp
      its freshness was judged by. It is not misdated unless, since a request last published it, a
      call left behind by a dropped request took effect on it. */
  lemma BoundedStaleness(ttl: Time, s0: State, steps: seq<Step>, t: nat)
    requires Init(s0) && After(ttl, s0, steps).Reached?
    ensures var s := After(ttl, s0, steps).state;
            t in s.threads && s.threads[t].pc.Serving? && s.threads[t].wantFetch ==>
              var th := s.threads[t];
              && (th.name in s.mirrors || th.name in s.gone)
              && (th.name !in s.landed ==> !Misdated(s, th.name))
              && (th.name in s.mirrors && !Misdated(s, th.name) ==>
                    && s.mirrors[th.name].body.Complete?
                    && var read := s.mirrors[th.name].body.read;
                       match th.pc.outcome
                       case Cached(decided) => read + ttl > decided >= th.started
                       case _ => read >= th.started)
  {
    InvAlways(ttl, s0, steps);
    var s := After(ttl, s0, steps).state;
    assert ThreadInv(ttl, s, t);
    assert t in s.threads ==> NameInv(s, s.threads[t].name);
  }

  /** Mutual exclusion: in every run no two requests past the lock work on the same repository,
      and none does while the evictor is inside its own critical section for it. */
  lemma MutualExclusion(ttl: Time, s0: State, steps: seq<Step>, t: nat, u: nat)
    requires Init(s0) && After(ttl, s0, steps).Reached?
    ensures var s := After(ttl, s0, steps).state;
            t in s.threads && HoldsLock(s.threads[t].pc) ==>
              && (EvictHolds(s.evict) ==> s.evict.name != s.threads[t].name)
              && (u in s.threads && HoldsLock(s.threads[u].pc) && s.threads[u].name == s.threads[t].name ==> u == t)
  {
    InvAlways(ttl, s0, steps);
    var s := After(ttl, s0, steps).state;
    assert ThreadInv(ttl, s, t) && ThreadInv(ttl, s, u);
  }

  /** What a request decides, in every run and at the moment it decides: a clone exactly if there is no
      mirror; otherwise a fetch exactly if it asked for one and the slot has no stamp, the TTL is
      zero, or the stamp is as old as the TTL; otherwise it serves what is there. One that did not
      ask never goes to upstream for a mirror that is there. */
  lemma DecidesExactly(ttl: Time, s0: State, steps: seq<Step>, t: nat)
    requires Init(s0) && After(ttl, s0, steps).Reached?
    ensures var s := After(ttl, s0, steps).state;
            t in s.threads ==>
              var th := s.threads[t];
              && (th.pc.Stamped? ==>
                    && (Enabled(ttl, s, DecideClone(t)) <==> th.name !in s.mirrors)
                    && (Enabled(ttl, s, SeeHead(t)) <==> th.name in s.mirrors))
              && (th.pc.HeadSeen? ==>
                    && th.name in s.slots && s.slots[th.name] in s.cells
                    && var last := s.cells[s.slots[th.name]].last;
                       var stale := last == None || ttl == 0 || s.clock >= last.value + ttl;
                       && (Enabled(ttl, s, DecideFetch(t)) <==> th.wantFetch && stale)
                       && (Enabled(ttl, s, DecideCached(t)) <==> !(th.wantFetch && stale)))
              && (!th.wantFetch ==> !Fetches(th.pc))
  {
    InvAlways(ttl, s0, steps);
    assert ThreadInv(ttl, After(ttl, s0, steps).state, t);
  }

  /** Coalescing: in every run, once a pull has succeeded, no clone is decided for that mirror,
      and no refresh fetch within the TTL of the pull's stamp, until the mirror disappears. */
  lemma Coalescing(ttl: Time, s0: State, steps: seq<Step>, t: nat)
    requires Init(s0) && After(ttl, s0, steps).Reached?
    ensures var s := After(ttl, s0, steps).state;
            t in s.threads && s.threads[t].name in s.lastPull ==>
              && !Enabled(ttl, s, DecideClone(t))
              && (Enabled(ttl, s, DecideFetch(t)) ==> s.clock >= s.lastPull[s.threads[t].name] + ttl)
  {
    InvAlways(ttl, s0, steps);
    var s := After(ttl, s0, steps).state;
    assert ThreadInv(ttl, s, t);
    if t in s.threads { assert NameInv(s, s.threads[t].name); }
  }

  /** While the evictor deletes what it renamed away, it renames nothing. */
  lemma RemovingStays(ttl: Time, s: State, step: Step)
    requires Enabled(ttl, s, step) && s.evict.EvictRemoving?
    requires !step.EvictRemoveTrash? && !step.Crash?
    ensures !step.EvictRename? && Next(ttl, s, step).evict == s.evict
  {
  }

  lemma {:induction false} RemovalEndsFirst(ttl: Time, s: State, steps: seq<Step>, j: nat) returns (k: nat)
    requires s.evict.EvictRemoving? && After(ttl, s, steps).Reached? && j < |steps| && steps[j].EvictRename?
    ensures k < j && (steps[k].EvictRemoveTrash? || steps[k].Crash?)
    decreases j
  {
    if steps[0].EvictRemoveTrash? || steps[0].Crash? {
      k := 0;
    } else {
      RemovingStays(ttl, s, steps[0]);
      var i := RemovalEndsFirst(ttl, Next(ttl, s, steps[0]), steps[1..], j - 1);
      k := i + 1;
    }
  }

  lemma RenameThenRemoving(ttl: Time, s: State)
    requires Enabled(ttl, s, EvictRename)
    ensures s.evict.name !in s.trash && Next(ttl, s, EvictRename).evict.EvictRemoving?
  {
  }

  /** No two evictions share a trash directory: in every run, between two renames the removal that
      followed the first one ended, or the process did; and each rename finds no trash of its name.
      This needs that there is one evictor and that it takes its victims in turn. */
  lemma {:induction false} EvictionsTakeTurns(ttl: Time, s: State, steps: seq<Step>, i: nat, j: nat) returns (k: nat)
    requires After(ttl, s, steps).Reached? && i < j < |steps| && steps[i].EvictRename? && steps[j].EvictRename?
    ensures i < k < j && (steps[k].EvictRemoveTrash? || steps[k].Crash?)
    decreases i
  {
    var rest, s' := steps[1..], Next(ttl, s, steps[0]);
    if i == 0 {
      RenameThenRemoving(ttl, s);
      var m := RemovalEndsFirst(ttl, s', rest, j - 1);
      k := m + 1;
    } else {
      var m := EvictionsTakeTurns(ttl, s', rest, i - 1, j - 1);
      k := m + 1;
    }
  }

  /** The mirror of `n` is visible although it is not what a clone finished. */
  ghost predicate ShownIncomplete(s: State, n: string) { n in s.mirrors && !s.mirrors[n].body.Complete? }

  /** Atomic publication: in every run, crashes included, whatever is visible at a mirror path is a
      directory `git clone` finished, unless a call left behind has since taken effect; each attempt
      starts with no staging directory; and, with the same exception, a finished clone finds its
      staging directory complete and nothing in its way. */
  lemma AtomicPublication(ttl: Time, s0: State, steps: seq<Step>, n: string, t: nat)
    requires Init(s0) && After(ttl, s0, steps).Reached?
    ensures var s := After(ttl, s0, steps).state;
            && (n !in s.landed ==> !ShownIncomplete(s, n))
            && (Enabled(ttl, s, SpawnClone(t)) ==> s.threads[t].name !in s.staging)
            && (t in s.threads && s.threads[t].pc.CloneDone? && s.threads[t].name !in s.landed ==>
                  Enabled(ttl, s, RenameIntoPlace(t)) && s.staging[s.threads[t].name].body.Complete?)
  {
    InvAlways(ttl, s0, steps);
    var s := After(ttl, s0, steps).state;
    assert NameInv(s, n);
    assert ThreadInv(ttl, s, t);
    assert t in s.threads ==> NameInv(s, s.threads[t].name);
  }

  // ---------------------------------------------------------------------------------
  // Exactly when a mirror is shown incomplete
  // ---------------------------------------------------------------------------------

  /** The steps that put an incomplete mirror on show: a rename left behind finds an unfinished
      staging directory; a removal left behind deletes in the mirror, which it opened while it was
      still the staging directory; or a clone is published that such a removal has been at. */
  ghost predicate Spoils(s: State, step: Step, n: string) {
    || (step == LandRename(n) && n in s.staging && !s.staging[n].body.Complete?)
    || (step.Bite? && step.name == n && Has(s.mirrors, n, step.inode))
    || (step.RenameIntoPlace? && step.t in s.threads && s.threads[step.t].name == n
        && n in s.staging && s.staging[n].body.Bitten?)
  }

  /** A request publishes only what its clone has finished, bitten or not. */
  ghost predicate PublishesFinished(s: State, step: Step) {
    step.RenameIntoPlace? && step.t in s.threads && s.threads[step.t].name in s.staging ==>
      !s.staging[s.threads[step.t].name].body.Partial?
  }

  lemma CloneSpoils(ttl: Time, s: State, step: Step, n: string)
    requires CloneStep(step) && CloneEnabled(ttl, s, step) && !ShownIncomplete(s, n) && PublishesFinished(s, step)
    ensures ShownIncomplete(CloneNext(ttl, s, step), n) <==> Spoils(s, step, n)
  {
  }

  lemma FetchSpoils(ttl: Time, s: State, step: Step, n: string)
    requires FetchStep(step) && FetchEnabled(ttl, s, step) && !ShownIncomplete(s, n)
    ensures ShownIncomplete(FetchNext(ttl, s, step), n) <==> Spoils(s, step, n)
  {
  }

  lemma EvictSpoils(ttl: Time, s: State, step: Step, n: string)
    requires EvictStep(step) && EvictEnabled(ttl, s, step) && !ShownIncomplete(s, n)
    ensures ShownIncomplete(EvictNext(ttl, s, step), n) <==> Spoils(s, step, n)
  {
  }

  lemma LateSpoils(ttl: Time, s: State, step: Step, n: string)
    requires LateStep(step) && LateEnabled(ttl, s, step) && !ShownIncomplete(s, n)
    ensures ShownIncomplete(LateNext(ttl, s, step), n) <==> Spoils(s, step, n)
  {
  }

  lemma WorldSpoils(ttl: Time, s: State, step: Step, n: string)
    requires WorldStep(step) && WorldEnabled(ttl, s, step) && !ShownIncomplete(s, n)
    ensures ShownIncomplete(WorldNext(ttl, s, step), n) <==> Spoils(s, step, n)
  {
  }

  lemma QuietSpoils(s: State, s': State, step: Step, n: string)
    requires !CloneStep(step) && !LateStep(step) && s'.mirrors == s.mirrors && !ShownIncomplete(s, n)
    ensures !ShownIncomplete(s', n) && !Spoils(s, step, n)
  {
  }

  lemma LockOnlyKeepsMirrors(ttl: Time, s: State, step: Step)
    requires (EnterStep(step) || LeaveStep(step) || DecideStep(step)) && Enabled(ttl, s, step)
    ensures Next(ttl, s, step).mirrors == s.mirrors
  {
  }

  lemma CloneStepSpoils(ttl: Time, s: State, step: Step, n: string)
    requires CloneStep(step) && Enabled(ttl, s, step) && !ShownIncomplete(s, n) && PublishesFinished(s, step)
    ensures ShownIncomplete(Next(ttl, s, step), n) <==> Spoils(s, step, n)
  {
    CloneSpoils(ttl, s, step, n);
  }

  lemma FetchStepSpoils(ttl: Time, s: State, step: Step, n: string)
    requires FetchStep(step) && Enabled(ttl, s, step) && !ShownIncomplete(s, n)
    ensures ShownIncomplete(Next(ttl, s, step), n) <==> Spoils(s, step, n)
  {
    FetchSpoils(ttl, s, step, n);
  }

  lemma OtherSpoils(ttl: Time, s: State, step: Step, n: string)
    requires !ThreadStep(step) && Enabled(ttl, s, step) && !ShownIncomplete(s, n)
    ensures ShownIncomplete(Next(ttl, s, step), n) <==> Spoils(s, step, n)
  {
    if EvictStep(step) {
      EvictSpoils(ttl, s, step, n);
    } else if LateStep(step) {
      LateSpoils(ttl, s, step, n);
    } else {
      WorldSpoils(ttl, s, step, n);
    }
  }

  lemma StepSpoils(ttl: Time, s: State, step: Step, n: string)
    requires Enabled(ttl, s, step) && !ShownIncomplete(s, n) && PublishesFinished(s, step)
    ensures ShownIncomplete(Next(ttl, s, step), n) <==> Spoils(s, step, n)
  {
    if CloneStep(step) {
      CloneStepSpoils(ttl, s, step, n);
    } else if FetchStep(step) {
      FetchStepSpoils(ttl, s, step, n);
    } else if ThreadStep(step) {
      LockOnlyKeepsMirrors(ttl, s, step);
      QuietSpoils(s, Next(ttl, s, step), step, n);
    } else {
      OtherSpoils(ttl, s, step, n);
    }
  }

  lemma PublishesOnlyFinished(ttl: Time, s: State, step: Step)
    requires Inv(ttl, s) && Enabled(ttl, s, step)
    ensures PublishesFinished(s, step)
  {
    if step.RenameIntoPlace? { assert ThreadInv(ttl, s, step.t); }
  }

  /** A step shows the mirror of `n` incomplete exactly if it is one of those. */
  lemma ShowsIncompleteExactly(ttl: Time, s: State, step: Step, n: string)
    requires Inv(ttl, s) && Enabled(ttl, s, step) && !ShownIncomplete(s, n)
    ensures ShownIncomplete(Next(ttl, s, step), n) <==> Spoils(s, step, n)
  {
    PublishesOnlyFinished(ttl, s, step);
    StepSpoils(ttl, s, step, n);
  }

  /** Some state along the run shows the mirror of `n` incomplete. */
  ghost predicate ShownAlong(ttl: Time, s: State, steps: seq<Step>, n: string)
    decreases |steps|
  {
    || ShownIncomplete(s, n)
    || (steps != [] && Enabled(ttl, s, steps[0]) && ShownAlong(ttl, Next(ttl, s, steps[0]), steps[1..], n))
  }

  /** Some step along the run is one of those that spoil it. */
  ghost predicate SpoiltAlong(ttl: Time, s: State, steps: seq<Step>, n: string)
    decreases |steps|
  {
    && steps != [] && Enabled(ttl, s, steps[0])
    && (Spoils(s, steps[0], n) || SpoiltAlong(ttl, Next(ttl, s, steps[0]), steps[1..], n))
  }

  lemma {:induction false} ShownAlongExactly(ttl: Time, s: State, steps: seq<Step>, n: string)
    requires Inv(ttl, s) && !ShownIncomplete(s, n)
    ensures ShownAlong(ttl, s, steps, n) <==> SpoiltAlong(ttl, s, steps, n)
    decreases |steps|
  {
    if steps != [] && Enabled(ttl, s, steps[0]) {
      var s' := Next(ttl, s, steps[0]);
      ShowsIncompleteExactly(ttl, s, steps[0], n);
      StepKeepsInv(ttl, s, steps[0]);
      if !ShownIncomplete(s', n) { ShownAlongExactly(ttl, s', steps[1..], n); }
    }
  }

  /** The exact condition: a run ever shows the mirror of `n` incomplete if and only if it takes one
      of those steps, all of which need a call left behind by a dropped request. */
  lemma PublishedAtomicallyExactly(ttl: Time, s0: State, steps: seq<Step>, n: string)
    requires Init(s0)
    ensures ShownAlong(ttl, s0, steps, n) <==> SpoiltAlong(ttl, s0, steps, n)
  {
    ShownAlongExactly(ttl, s0, steps, n);
  }

  // ---------------------------------------------------------------------------------
  // Exactly when a mirror is misdated
  // ---------------------------------------------------------------------------------

  /** The steps that make the stamp of `n` promise too much: those that put an incomplete mirror on
      show; a rename left behind that lands an older clone than the stamp; and a stamp stored for a
      pull whose mirror has meanwhile given way to an older one. */
  ghost predicate Misdates(s: State, step: Step, n: string) {
    || Spoils(s, step, n)
    || (step == LandRename(n) && n in s.staging && s.staging[n].body.Complete? && n in s.slots
        && s.slots[n] in s.cells && s.cells[s.slots[n]].last.Some?
        && s.staging[n].body.read < s.cells[s.slots[n]].last.value)
    || (step.StoreStamp? && step.t in s.threads && s.threads[step.t].name == n
        && n in s.mirrors && s.mirrors[n].body.Complete? && s.mirrors[n].body.read < s.threads[step.t].started)
  }

  lemma EnterMisdates(ttl: Time, s: State, step: Step, n: string)
    requires EnterStep(step) && EnterEnabled(ttl, s, step)
    requires SlotsInjective(s) && !Misdated(s, n) && ThreadInv(ttl, s, step.t)
    ensures Misdated(EnterNext(ttl, s, step), n) <==> Misdates(s, step, n)
  {
  }

  lemma LeaveMisdates(ttl: Time, s: State, step: Step, n: string)
    requires LeaveStep(step) && LeaveEnabled(ttl, s, step)
    requires SlotsInjective(s) && !Misdated(s, n) && ThreadInv(ttl, s, step.t)
    ensures Misdated(LeaveNext(ttl, s, step), n) <==> Misdates(s, step, n)
  {
  }

  lemma DecideMisdates(ttl: Time, s: State, step: Step, n: string)
    requires DecideStep(step) && DecideEnabled(ttl, s, step)
    requires SlotsInjective(s) && !Misdated(s, n) && ThreadInv(ttl, s, step.t)
    ensures Misdated(DecideNext(ttl, s, step), n) <==> Misdates(s, step, n)
  {
  }

  lemma CloneMisdates(ttl: Time, s: State, step: Step, n: string)
    requires CloneStep(step) && CloneEnabled(ttl, s, step)
    requires SlotsInjective(s) && !Misdated(s, n) && ThreadInv(ttl, s, step.t)
    ensures Misdated(CloneNext(ttl, s, step), n) <==> Misdates(s, step, n)
  {
  }

  lemma FetchMisdates(ttl: Time, s: State, step: Step, n: string)
    requires FetchStep(step) && FetchEnabled(ttl, s, step)
    requires SlotsInjective(s) && !Misdated(s, n) && ThreadInv(ttl, s, step.t)
    ensures Misdated(FetchNext(ttl, s, step), n) <==> Misdates(s, step, n)
  {
  }

  lemma EvictEntryMisdates(ttl: Time, s: State, step: Step, n: string)
    requires EvictEntryStep(step) && EvictEnabled(ttl, s, step)
    requires SlotsInjective(s) && !Misdated(s, n) && EvictInv(s)
    ensures Misdated(EvictNext(ttl, s, step), n) <==> Misdates(s, step, n)
  {
  }

  lemma EvictWorkMisdates(ttl: Time, s: State, step: Step, n: string)
    requires EvictWorkStep(step) && EvictEnabled(ttl, s, step)
    requires SlotsInjective(s) && !Misdated(s, n) && EvictInv(s)
    ensures Misdated(EvictNext(ttl, s, step), n) <==> Misdates(s, step, n)
  {
  }

  lemma LateMisdates(ttl: Time, s: State, step: Step, n: string)
    requires LateStep(step) && LateEnabled(ttl, s, step)
    requires SlotsInjective(s) && !Misdated(s, n)
    ensures Misdated(LateNext(ttl, s, step), n) <==> Misdates(s, step, n)
  {
  }

  lemma WorldMisdates(ttl: Time, s: State, step: Step, n: string)
    requires WorldStep(step) && WorldEnabled(ttl, s, step)
    requires SlotsInjective(s) && !Misdated(s, n)
    ensures Misdated(WorldNext(ttl, s, step), n) <==> Misdates(s, step, n)
  {
  }

  lemma RequestMisdates(ttl: Time, s: State, step: Step, n: string)
    requires SlotsInjective(s) && !Misdated(s, n) && ThreadStep(step) && Enabled(ttl, s, step)
    requires ThreadInv(ttl, s, step.t)
    ensures Misdated(Next(ttl, s, step), n) <==> Misdates(s, step, n)
  {
    if EnterStep(step) {
      EnterMisdates(ttl, s, step, n);
    } else if LeaveStep(step) {
      LeaveMisdates(ttl, s, step, n);
    } else if DecideStep(step) {
      DecideMisdates(ttl, s, step, n);
    } else if CloneStep(step) {
      CloneMisdates(ttl, s, step, n);
    } else {
      FetchMisdates(ttl, s, step, n);
    }
  }

  lemma OtherMisdates(ttl: Time, s: State, step: Step, n: string)
    requires SlotsInjective(s) && EvictInv(s) && !Misdated(s, n) && !ThreadStep(step) && Enabled(ttl, s, step)
    ensures Misdated(Next(ttl, s, step), n) <==> Misdates(s, step, n)
  {
    if EvictEntryStep(step) {
      EvictEntryMisdates(ttl, s, step, n);
    } else if EvictWorkStep(step) {
      EvictWorkMisdates(ttl, s, step, n);
    } else if LateStep(step) {
      LateMisdates(ttl, s, step, n);
    } else {
      WorldMisdates(ttl, s, step, n);
    }
  }

  /** A step misdates the mirror of `n` exactly if it is one of those. */
  lemma MisdatedExactly(ttl: Time, s: State, step: Step, n: string)
    requires Inv(ttl, s) && Enabled(ttl, s, step) && !Misdated(s, n)
    ensures Misdated(Next(ttl, s, step), n) <==> Misdates(s, step, n)
  {
    if ThreadStep(step) {
      assert ThreadInv(ttl, s, step.t);
      RequestMisdates(ttl, s, step, n);
    } else {
      OtherMisdates(ttl, s, step, n);
    }
  }

  ghost predicate MisdatedAlong(ttl: Time, s: State, steps: seq<Step>, n: string)
    decreases |steps|
  {
    || Misdated(s, n)
    || (steps != [] && Enabled(ttl, s, steps[0]) && MisdatedAlong(ttl, Next(ttl, s, steps[0]), steps[1..], n))
  }

  ghost predicate MisdatesAlong(ttl: Time, s: State, steps: seq<Step>, n: string)
    decreases |steps|
  {
    && steps != [] && Enabled(ttl, s, steps[0])
    && (Misdates(s, steps[0], n) || MisdatesAlong(ttl, Next(ttl, s, steps[0]), steps[1..], n))
  }

  lemma {:induction false} MisdatedAlongExactly(ttl: Time, s: State, steps: seq<Step>, n: string)
    requires Inv(ttl, s) && !Misdated(s, n)
    ensures MisdatedAlong(ttl, s, steps, n) <==> MisdatesAlong(ttl, s, steps, n)
    decreases |steps|
  {
    if steps != [] && Enabled(ttl, s, steps[0]) {
      var s' := Next(ttl, s, steps[0]);
      MisdatedExactly(ttl, s, steps[0], n);
      StepKeepsInv(ttl, s, steps[0]);
      if !Misdated(s', n) { MisdatedAlongExactly(ttl, s', steps[1..], n); }
    }
  }

  /** The exact condition: a run ever holds a misdated mirror of `n` if and only if it takes one of
      those steps. */
  lemma FreshnessHoldsExactly(ttl: Time, s0: State, steps: seq<Step>, n: string)
    requires Init(s0)
    ensures MisdatedAlong(ttl, s0, steps, n) <==> MisdatesAlong(ttl, s0, steps, n)
  {
    MisdatedAlongExactly(ttl, s0, steps, n);
  }

  // ---------------------------------------------------------------------------------
  // Reachable states
  // ---------------------------------------------------------------------------------

  function EmptyCache(): State {
    State(0, map[], map[], map[], EvictIdle, map[], map[], 0, {}, multiset{}, map[], {}, {})
  }

  /** Some run from `s0` leads to `s`. */
  ghost predicate Reachable(ttl: Time, s0: State, s: State) { exists steps :: After(ttl, s0, steps) == Reached(s) }

  lemma OneMore(ttl: Time, s0: State, s: State, step: Step) returns (r: State)
    requires Reachable(ttl, s0, s) && Enabled(ttl, s, step)
    ensures r == Next(ttl, s, step) && Reachable(ttl, s0, r)
  {
    var steps :| After(ttl, s0, steps) == Reached(s);
    Extend(ttl, s0, steps, s, step);
    r := Next(ttl, s, step);
  }

  /** One more enabled step at the end of a run. */
  lemma {:induction false} Extend(ttl: Time, s0: State, steps: seq<Step>, s: State, step: Step)
    requires After(ttl, s0, steps) == Reached(s) && Enabled(ttl, s, step)
    ensures After(ttl, s0, steps + [step]) == Reached(Next(ttl, s, step))
    decreases |steps|
  {
    var longer := steps + [step];
    if steps == [] {
      assert longer[1..] == [];
    } else {
      assert longer[1..] == steps[1..] + [step];
      Extend(ttl, Next(ttl, s0, steps[0]), steps[1..], s, step);
    }
  }
}
