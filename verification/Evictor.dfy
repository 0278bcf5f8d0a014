/** Request threads and the background evictor sharing one cache index (src/evict.rs, with the
    lock-holding request paths of src/git.rs and src/lfs.rs). Every mutex critical section, every
    disk effect and every wake-up is its own step, and any step may follow any other, so the
    results below hold for every interleaving.

    The per-name lock is the slot lock of the repository or object; `reqs` maps each locked name
    to what its holder does next. That this lock excludes is proved in `Mirror` and `LfsStore`. */
module Evictor {
  import opened Common
  import opened Index

  /** The cap, and which keys name LFS objects. */
  datatype Config = Config(cap: u64, blob: string -> bool)

  /** What the request holding a name's lock is about to do. */
  datatype Phase =
    | Pulling            // mirror: git may be writing, or nothing is due
    | MustMark           // mirror: clone renamed or git exited 0; `mark_changed` comes next
    | MustNotify         // mirror: marked; `notify_one` outstanding
    | Storing            // object: seen absent under the lock, no temporary file
    | Downloading(id: nat)   // object: streaming into a temporary file, or checking it
    | MustRecord(size: u64)  // object: renamed into place; `record_blob` comes next
    | MustWake           // object: recorded; `notify_one` outstanding

  /** Where the background task is. */
  datatype Task =
    | BeforeTakeDirty
    | Measuring(todo: set<string>, done: map<string, u64>)
    | Setting(done: map<string, u64>)
    | BeforeTakeVictims
    | Evicting(queue: set<string>)
    | EvictHolding(name: string, queue: set<string>)  // inside `GitCache::evict`, lock held
    | EvictRemoving(name: string, queue: set<string>) // renamed and unlocked; the slow delete remains
    | Waiting
    | BeforeSnapshot
    | Stating(todo: set<string>, missing: seq<string>)
    | BeforeDrop(missing: seq<string>)
    | Stopped

  /** What is on disk besides mirrors and objects, and counted by nobody. */
  datatype Debris = Staging(name: string) | Trash(name: string) | Temp(id: nat)

  /** `disk` gives the true bytes of every mirror and object on disk, `residue` those of everything
      else. The last six fields record history: names whose bytes changed since they were last marked or recorded; those of them
      whose lock was released in that state, with those whose measurement was lost or skipped
      something, and objects recorded as 0 bytes because their length could not be read; names
      whose deletion failed; names whose request was dropped with the rename done or under way and
      the report still to come; objects that an operator deleted by hand, that such a rename put in
      place, or that were stored again because looking for them failed; and what was left lying
      about, by a request that ended, a removal that failed, or an earlier process. */
  datatype State = State(
    idx: Inner,
    permit: bool,
    disk: map<string, u64>,
    residue: map<Debris, u64>,
    reqs: map<string, Phase>,
    task: Task,
    unflagged: set<string>,
    faulted: set<string>,
    failed: set<string>,
    abandoned: set<string>,
    disturbed: set<string>,
    littered: set<Debris>)

  datatype Step =
    | StepTouch(n: string)
    // requests for mirrors
    | StepAcquire(n: string)
    | StepStage(n: string, size: u64)      // git writes into the staging directory
    | StepUnstage(n: string)               // it is removed
    | StepCloneRename(n: string, size: u64)
    | StepWrite(n: string, size: u64)
    | StepUpstreamOk(n: string)
    | StepMark(n: string)
    | StepNotify(n: string)
    | StepRelease(n: string)
    | StepAbandon(n: string)
    // requests for LFS objects
    | StepStartStore(n: string)
    | StepStatFails(n: string)     // the existence check fails, which counts as absent
    | StepDownload(n: string, id: nat, size: u64)  // a temporary file is created
    | StepChunk(n: string, size: u64)              // and grows
    | StepDiscard(n: string)                       // and is removed after a failure
    | StepStoreRename(n: string, size: u64, measured: bool)
    | StepRecord(n: string)
    | StepWake(n: string)
    // the background task
    | StepTakeDirty
    | StepMeasure(n: string, size: u64, whole: bool)
    | StepMeasured
    | StepMeasureLost              // the blocking walk panics: `unwrap_or_default`
    | StepSetSize(n: string)
    | StepSizesSet
    | StepTakeVictims
    | StepEvictLock(n: string)
    | StepEvictMirror(ok: bool)
    | StepTrashRemoved(left: u64)
    | StepUnlinkBlob(n: string, ok: bool)
    | StepEvicted
    | StepWoken
    | StepTick
    | StepSnapshot
    | StepStat(n: string, notFound: bool)
    | StepStatDone
    | StepStatLost                 // likewise
    | StepDrop
    | StepStop
    // the environment
    | StepHandDelete(n: string)
    | StepLateRename(n: string, size: u64)   // one that its dropped request left to the blocking pool
    | StepGc(n: string, size: u64)           // git's own maintenance, detached from the fetch
    | StepSweep(d: Debris)                   // somebody clears up
    | StepRestart(order: seq<string>)

  ghost predicate Listed(idx: Inner) { forall n :: n in idx.order ==> n in idx.sizes }

  ghost predicate Locked(s: State, n: string) {
    n in s.reqs || (s.task.EvictHolding? && s.task.name == n)
  }

  function Members(names: seq<string>): set<string> { set n | n in names }

  ghost predicate Holds(s: State, n: string, p: Phase) { n in s.reqs && s.reqs[n] == p }

  ghost predicate FetchingObject(s: State, n: string) {
    n in s.reqs && (s.reqs[n].Storing? || s.reqs[n].Downloading?)
  }

  /** What the request for `n` has on disk so far. */
  ghost function OwnDebris(s: State, n: string): set<Debris> {
    {Staging(n)} + if n in s.reqs && s.reqs[n].Downloading? then {Temp(s.reqs[n].id)} else {}
  }

  predicate PullStep(step: Step) {
    || step.StepTouch? || step.StepAcquire? || step.StepStage? || step.StepUnstage?
    || step.StepCloneRename? || step.StepWrite? || step.StepUpstreamOk?
    || step.StepMark? || step.StepNotify? || step.StepRelease? || step.StepAbandon?
  }

  predicate StoreStep(step: Step) {
    || step.StepStartStore? || step.StepStatFails? || step.StepDownload? || step.StepChunk? || step.StepDiscard?
    || step.StepStoreRename? || step.StepRecord? || step.StepWake?
  }

  predicate WalkStep(step: Step) { step.StepTakeDirty? || step.StepMeasure? || step.StepMeasured? }

  predicate SettleStep(step: Step) { step.StepMeasureLost? || step.StepSetSize? || step.StepSizesSet? }

  predicate MeasureStep(step: Step) { WalkStep(step) || SettleStep(step) }

  predicate EvictStep(step: Step) {
    || step.StepTakeVictims? || step.StepEvictLock? || step.StepEvictMirror? || step.StepTrashRemoved?
    || step.StepUnlinkBlob? || step.StepEvicted?
  }

  predicate EnvironmentStep(step: Step) {
    step.StepHandDelete? || step.StepLateRename? || step.StepGc? || step.StepSweep? || step.StepRestart?
  }

  predicate ReconcileStep(step: Step) {
    || step.StepWoken? || step.StepTick? || step.StepSnapshot? || step.StepStat? || step.StepStatDone?
    || step.StepStatLost? || step.StepDrop? || step.StepStop?
  }

  ghost predicate PullEnabled(c: Config, s: State, step: Step)
    requires PullStep(step)
  {
    match step
    case StepTouch(n) => true
    case StepAcquire(n) => !c.blob(n) && !Locked(s, n)
    case StepStage(n, size) => Holds(s, n, Pulling)
    case StepUnstage(n) => Holds(s, n, Pulling)
    case StepCloneRename(n, size) => Holds(s, n, Pulling) && n !in s.disk
    case StepWrite(n, size) => Holds(s, n, Pulling) && n in s.disk
    case StepUpstreamOk(n) => Holds(s, n, Pulling)
    case StepMark(n) => Holds(s, n, MustMark)
    case StepNotify(n) => Holds(s, n, MustNotify)
    case StepRelease(n) => Holds(s, n, Pulling) || FetchingObject(s, n)
    case StepAbandon(n) => AboutToReport(s, n)
  }

  ghost predicate StoreEnabled(c: Config, s: State, step: Step)
    requires StoreStep(step)
  {
    match step
    case StepStartStore(n) => c.blob(n) && !Locked(s, n) && n !in s.disk
    case StepStatFails(n) => c.blob(n) && !Locked(s, n)
    case StepDownload(n, id, size) => Holds(s, n, Storing) && Temp(id) !in s.residue
    case StepChunk(n, size) => n in s.reqs && s.reqs[n].Downloading?
    case StepDiscard(n) => n in s.reqs && s.reqs[n].Downloading?
    case StepStoreRename(n, size, measured) => n in s.reqs && s.reqs[n].Downloading?
    case StepRecord(n) => n in s.reqs && s.reqs[n].MustRecord?
    case StepWake(n) => Holds(s, n, MustWake)
  }

  /** A measurement is exact unless the name is absent, its bytes changed since the batch was taken,
      or the walk had to skip something it could not read: then it may have come to anything. */
  ghost predicate MeasureEnabled(c: Config, s: State, step: Step)
    requires MeasureStep(step)
  {
    match step
    case StepTakeDirty => s.task.BeforeTakeDirty?
    case StepMeasure(n, size, whole) =>
      && s.task.Measuring? && n in s.task.todo
      && (whole && n in s.disk && n !in s.unflagged && n !in s.idx.dirty ==> size == s.disk[n])
    case StepMeasured => s.task.Measuring? && s.task.todo == {}
    case StepMeasureLost => s.task.Measuring?
    case StepSetSize(n) => s.task.Setting? && n in s.task.done
    case StepSizesSet => s.task.Setting? && s.task.done == map[]
  }

  ghost predicate EvictEnabled(c: Config, s: State, step: Step)
    requires EvictStep(step)
  {
    match step
    case StepTakeVictims => s.task.BeforeTakeVictims?
    case StepEvictLock(n) => s.task.Evicting? && n in s.task.queue && !c.blob(n) && !Locked(s, n)
    case StepEvictMirror(ok) => s.task.EvictHolding?
    case StepTrashRemoved(left) =>
      && s.task.EvictRemoving?
      && left <= if Trash(s.task.name) in s.residue then s.residue[Trash(s.task.name)] else 0
    case StepUnlinkBlob(n, ok) => s.task.Evicting? && n in s.task.queue && c.blob(n)
    case StepEvicted => s.task.Evicting? && s.task.queue == {}
  }

  ghost predicate ReconcileEnabled(c: Config, s: State, step: Step)
    requires ReconcileStep(step)
  {
    match step
    case StepWoken => s.task.Waiting? && s.permit
    case StepTick => s.task.Waiting?
    case StepSnapshot => s.task.BeforeSnapshot?
    case StepStat(n, notFound) => s.task.Stating? && n in s.task.todo && (notFound ==> n !in s.disk)
    case StepStatDone => s.task.Stating? && s.task.todo == {}
    case StepStatLost => s.task.Stating?
    case StepDrop => s.task.BeforeDrop?
    case StepStop => s.task.Waiting?
  }

  ghost predicate EnvironmentEnabled(c: Config, s: State, step: Step)
    requires EnvironmentStep(step)
  {
    match step
    case StepHandDelete(n) => n in s.disk
    case StepLateRename(n, size) => n !in s.disk
    case StepGc(n, size) => !c.blob(n) && n in s.disk
    case StepSweep(d) => d in s.littered
    case StepRestart(order) => Distinct(order) && forall n :: n in order <==> n in s.disk
  }

  /** The guard of each step. */
  ghost predicate Enabled(c: Config, s: State, step: Step) {
    if PullStep(step) then PullEnabled(c, s, step)
    else if StoreStep(step) then StoreEnabled(c, s, step)
    else if MeasureStep(step) then MeasureEnabled(c, s, step)
    else if EvictStep(step) then EvictEnabled(c, s, step)
    else if ReconcileStep(step) then ReconcileEnabled(c, s, step)
    else EnvironmentEnabled(c, s, step)
  }

  /** What a startup scan leaves: every mirror and object on disk, tracked at its true size. */
  ghost function Startup(c: Config, disk: map<string, u64>, residue: map<Debris, u64>, order: seq<string>): State
    requires forall n :: n in order <==> n in disk
  {
    var total := Wrap(Sum(order, disk));
    State(Inner(order, disk, {}, total), total > c.cap, disk, residue, map[], BeforeTakeDirty,
          {}, {}, {}, {}, {}, residue.Keys)
  }

  /** Requests for mirrors. */
  ghost function PullNext(c: Config, s: State, step: Step): (r: State)
    requires Listed(s.idx) && PullStep(step) && PullEnabled(c, s, step)
    ensures step.StepTouch? || step.StepMark? || r.idx == s.idx
  {
    match step
    case StepTouch(n) => s.(idx := Touch(s.idx, n))
    case StepAcquire(n) => s.(reqs := s.reqs[n := Pulling])
    case StepStage(n, size) => s.(residue := s.residue[Staging(n) := size])
    case StepUnstage(n) => s.(residue := s.residue - {Staging(n)}, littered := s.littered - {Staging(n)})
    case StepCloneRename(n, size) =>
      s.(disk := s.disk[n := size], unflagged := s.unflagged + {n}, reqs := s.reqs[n := MustMark],
         residue := s.residue - {Staging(n)}, littered := s.littered - {Staging(n)})
    case StepWrite(n, size) => s.(disk := s.disk[n := size], unflagged := s.unflagged + {n})
    case StepUpstreamOk(n) => s.(reqs := s.reqs[n := MustMark])
    case StepMark(n) =>
      s.(idx := MarkChanged(s.idx, n), reqs := s.reqs[n := MustNotify],
         unflagged := s.unflagged - {n}, faulted := s.faulted - {n}, failed := s.failed - {n},
         abandoned := s.abandoned - {n})
    case StepNotify(n) => s.(permit := true, reqs := s.reqs[n := Pulling])
    case StepRelease(n) =>
      s.(reqs := s.reqs - {n}, faulted := if n in s.unflagged then s.faulted + {n} else s.faulted,
         littered := s.littered + OwnDebris(s, n) * s.residue.Keys)
    case StepAbandon(n) =>
      s.(reqs := s.reqs - {n}, abandoned := s.abandoned + {n},
         faulted := if n in s.unflagged then s.faulted + {n} else s.faulted,
         littered := s.littered + OwnDebris(s, n) * s.residue.Keys)
  }

  /** Requests for LFS objects. */
  ghost function StoreNext(c: Config, s: State, step: Step): (r: State)
    requires Listed(s.idx) && StoreStep(step) && StoreEnabled(c, s, step)
    ensures step.StepRecord? || r.idx == s.idx
  {
    match step
    case StepStartStore(n) => s.(reqs := s.reqs[n := Storing])
    case StepStatFails(n) => s.(reqs := s.reqs[n := Storing], disturbed := s.disturbed + {n})
    case StepDownload(n, id, size) =>
      s.(reqs := s.reqs[n := Downloading(id)], residue := s.residue[Temp(id) := size])
    case StepChunk(n, size) => s.(residue := s.residue[Temp(s.reqs[n].id) := size])
    case StepDiscard(n) => s.(reqs := s.reqs[n := Storing], residue := s.residue - {Temp(s.reqs[n].id)})
    case StepStoreRename(n, size, measured) =>
      s.(disk := s.disk[n := size], unflagged := s.unflagged + {n}, residue := s.residue - {Temp(s.reqs[n].id)},
         reqs := s.reqs[n := MustRecord(if measured then size else 0)])
    case StepRecord(n) =>
      var exact := n in s.disk ==> s.disk[n] == s.reqs[n].size;
      s.(idx := RecordBlob(s.idx, n, s.reqs[n].size), reqs := s.reqs[n := MustWake],
         unflagged := if exact then s.unflagged - {n} else s.unflagged + {n},
         faulted := if exact then s.faulted - {n} else s.faulted + {n},
         failed := s.failed - {n}, abandoned := s.abandoned - {n})
    case StepWake(n) =>
      s.(permit := true, reqs := s.reqs - {n}, littered := s.littered + OwnDebris(s, n) * s.residue.Keys)
  }

  /** The evictor measures. */
  ghost function MeasureNext(c: Config, s: State, step: Step): (r: State)
    requires Listed(s.idx) && MeasureStep(step) && MeasureEnabled(c, s, step)
    ensures r.reqs == s.reqs
    ensures step.StepTakeDirty? || step.StepSetSize? || r.idx == s.idx
  {
    match step
    case StepTakeDirty => s.(task := Measuring(s.idx.dirty, map[]), idx := TakeDirty(s.idx))
    case StepMeasure(n, size, whole) =>
      s.(task := Measuring(s.task.todo - {n}, s.task.done[n := size]),
         unflagged := if whole then s.unflagged else s.unflagged + {n},
         faulted := if whole then s.faulted else s.faulted + {n})
    case StepMeasured => s.(task := Setting(s.task.done))
    case StepMeasureLost =>
      s.(task := Setting(map[]), unflagged := s.unflagged + Batch(s.task), faulted := s.faulted + Batch(s.task))
    case StepSetSize(n) =>
      s.(idx := SetSize(s.idx, n, s.task.done[n]), task := Setting(s.task.done - {n}))
    case StepSizesSet => s.(task := BeforeTakeVictims)
  }

  /** It evicts. */
  ghost function EvictNext(c: Config, s: State, step: Step): (r: State)
    requires Listed(s.idx) && EvictStep(step) && EvictEnabled(c, s, step)
    ensures r.reqs == s.reqs
    ensures step.StepTakeVictims? || r.idx == s.idx
  {
    match step
    case StepTakeVictims =>
      var (idx, victims) := TakeVictims(s.idx, c.cap);
      s.(idx := idx, task := Evicting(Members(victims)))
    case StepEvictLock(n) => s.(task := EvictHolding(n, s.task.queue - {n}))
    case StepEvictMirror(ok) =>
      var n, queue := s.task.name, s.task.queue;
      if !ok then s.(task := Evicting(queue), failed := s.failed + {n})
      else if n !in s.disk then s.(task := Evicting(queue))
      else
        s.(task := EvictRemoving(n, queue), disk := s.disk - {n},
           residue := s.residue[Trash(n) := s.disk[n]], littered := s.littered - {Trash(n)})
    case StepTrashRemoved(left) =>
      var d := Trash(s.task.name);
      var s' := s.(task := Evicting(s.task.queue));
      if left == 0 then s'.(residue := s.residue - {d})
      else s'.(residue := s.residue[d := left], littered := s.littered + {d})
    case StepUnlinkBlob(n, ok) =>
      var s' := s.(task := Evicting(s.task.queue - {n}));
      if ok then s'.(disk := s.disk - {n}) else s'.(failed := s.failed + {n})
    case StepEvicted => s.(task := Waiting)
  }

  /** It waits, and compares the index with the disk. */
  ghost function ReconcileNext(c: Config, s: State, step: Step): (r: State)
    requires Listed(s.idx) && ReconcileStep(step) && ReconcileEnabled(c, s, step)
    ensures r.reqs == s.reqs
    ensures step.StepDrop? || r.idx == s.idx
  {
    match step
    case StepWoken => s.(permit := false, task := BeforeTakeDirty)
    case StepTick => s.(task := BeforeSnapshot)
    case StepSnapshot => s.(task := Stating(s.idx.sizes.Keys, []))
    case StepStat(n, notFound) =>
      s.(task := Stating(s.task.todo - {n}, if notFound then s.task.missing + [n] else s.task.missing))
    case StepStatDone => s.(task := BeforeDrop(s.task.missing))
    case StepStatLost => s.(task := BeforeTakeDirty)
    case StepDrop => s.(idx := DropMissing(s.idx, s.task.missing), task := BeforeTakeDirty)
    case StepStop => s.(task := Stopped)
  }

  /** Everything else. */
  ghost function EnvironmentNext(c: Config, s: State, step: Step): (r: State)
    requires Listed(s.idx) && EnvironmentStep(step) && EnvironmentEnabled(c, s, step)
    ensures step.StepRestart? || (r.idx == s.idx && r.reqs == s.reqs)
  {
    match step
    case StepHandDelete(n) =>
      s.(disk := s.disk - {n}, disturbed := if c.blob(n) then s.disturbed + {n} else s.disturbed)
    case StepLateRename(n, size) =>
      s.(disk := s.disk[n := size], unflagged := s.unflagged + {n}, faulted := s.faulted + {n},
         residue := s.residue - {Staging(n)}, littered := s.littered - {Staging(n)}, abandoned := s.abandoned + {n}, disturbed := if c.blob(n) then s.disturbed + {n} else s.disturbed)
    case StepGc(n, size) =>
      s.(disk := s.disk[n := size], unflagged := s.unflagged + {n}, faulted := s.faulted + {n})
    case StepSweep(d) => s.(residue := s.residue - {d}, littered := s.littered - {d})
    case StepRestart(order) => Startup(c, s.disk, s.residue, order)
  }

  ghost function Next(c: Config, s: State, step: Step): State
    requires Listed(s.idx) && Enabled(c, s, step)
  {
    if PullStep(step) then PullNext(c, s, step)
    else if StoreStep(step) then StoreNext(c, s, step)
    else if MeasureStep(step) then MeasureNext(c, s, step)
    else if EvictStep(step) then EvictNext(c, s, step)
    else if ReconcileStep(step) then ReconcileNext(c, s, step)
    else EnvironmentNext(c, s, step)
  }

  // ---------------------------------------------------------------------------------
  // Invariants
  // ---------------------------------------------------------------------------------

  /** The batch taken from `dirty` and not yet written back. */
  ghost function Batch(t: Task): set<string> {
    match t
    case Measuring(todo, done) => todo + done.Keys
    case Setting(done) => done.Keys
    case _ => {}
  }

  ghost function Done(t: Task): map<string, u64> {
    if t.Measuring? || t.Setting? then t.done else map[]
  }

  /** Popped victims whose deletion is still to come. */
  ghost function Queue(t: Task): set<string> {
    match t
    case Evicting(queue) => queue
    case EvictHolding(n, queue) => queue + {n}
    case EvictRemoving(n, queue) => queue
    case _ => {}
  }

  ghost function Missing(t: Task): seq<string> {
    if t.Stating? || t.BeforeDrop? then t.missing else []
  }

  /** The holder's next action is to report this name to the index. */
  ghost predicate AboutToReport(s: State, n: string) {
    n in s.reqs && (s.reqs[n].MustMark? || s.reqs[n].MustRecord?)
  }

  /** A tracked name on disk has its true size in the index, unless a measurement of it is due. */
  ghost predicate SizeAgrees(s: State, n: string) {
    n in s.disk && n in s.idx.sizes ==>
      || s.idx.sizes[n] == s.disk[n]
      || n in s.idx.dirty || n in Batch(s.task) || n in s.unflagged
  }

  /** A measurement waiting to be written back is right, or a newer one is due: this is what
      makes a stale `set_size` harmless. */
  ghost predicate MeasurementUsable(s: State, n: string) {
    n in Done(s.task) && n in s.disk ==>
      Done(s.task)[n] == s.disk[n] || n in s.idx.dirty || n in s.unflagged
  }

  ghost predicate UnflaggedHeldOrFaulted(s: State, n: string) {
    n in s.unflagged ==> n in s.faulted || Holds(s, n, Pulling) || AboutToReport(s, n)
  }

  /** Nothing on disk escapes: it is tracked, or about to be reported, or a victim on its way out,
      or a failed deletion - or its request was dropped before the report, or it is an object that
      was once deleted by hand or stored twice over a failed check. */
  ghost predicate Accounted(c: Config, s: State, n: string) {
    n in s.disk ==>
      || n in s.idx.sizes || AboutToReport(s, n) || n in Queue(s.task) || n in s.failed
      || n in s.abandoned || (c.blob(n) && n in s.disturbed)
  }

  /** Between the stat and the pops, a name that reappeared is dirty or about to be: only the
      evictor drains `dirty`. For objects `dirty` gives no such protection. */
  ghost predicate MissingSafe(c: Config, s: State, n: string) {
    n in Missing(s.task) ==>
      if c.blob(n) then n in s.disturbed
      else n in s.disk ==> n in s.idx.dirty || AboutToReport(s, n) || n in s.abandoned
  }

  ghost predicate PhaseFits(c: Config, s: State, n: string) {
    && (n in s.reqs ==> (c.blob(n) <==> FetchingObject(s, n) || s.reqs[n].MustRecord? || s.reqs[n].MustWake?))
    && (c.blob(n) ==> n !in s.idx.dirty && n !in Batch(s.task))
    && (s.task.EvictHolding? && s.task.name == n ==> !c.blob(n) && n !in s.reqs && n !in s.task.queue)
  }

  /** An undisturbed object is on disk as long as the index or the victim queue knows it, and is
      known to at most one of them. */
  ghost predicate BlobPresent(c: Config, s: State, n: string) {
    c.blob(n) && n !in s.disturbed ==>
      && (FetchingObject(s, n) ==> n !in s.disk)
      && (n in s.idx.sizes ==> n in s.disk)
      && (n in Queue(s.task) ==> n in s.disk && n !in s.idx.sizes && !AboutToReport(s, n))
      && (AboutToReport(s, n) ==> n in s.disk && n !in s.idx.sizes)
      && (s.task.Stating? && n in s.task.todo ==> n in s.disk)
  }

  ghost predicate InvAt(c: Config, s: State, n: string) {
    && SizeAgrees(s, n) && MeasurementUsable(s, n) && UnflaggedHeldOrFaulted(s, n)
    && Accounted(c, s, n) && MissingSafe(c, s, n) && PhaseFits(c, s, n) && BlobPresent(c, s, n)
  }

  /** Somebody is still at work on it. */
  ghost predicate InUse(s: State, d: Debris) {
    match d
    case Staging(n) => n in s.reqs
    case Trash(n) => s.task.EvictRemoving? && s.task.name == n
    case Temp(id) => exists n :: n in s.reqs && s.reqs[n] == Downloading(id)
  }

  /** Nothing lies about that is not in use or known to have been left. */
  ghost predicate DebrisExplained(s: State, d: Debris) { d in s.residue ==> d in s.littered || InUse(s, d) }

  ghost predicate NotifyDueAt(s: State, n: string) {
    n in s.reqs && (s.reqs[n].MustNotify? || s.reqs[n].MustWake?)
  }

  ghost predicate NotifyDue(s: State) {
    exists n :: NotifyDueAt(s, n)
  }

  /** The pass now running has not yet taken the dirty set (a reconcile leads straight to it). */
  ghost predicate BeforeDirty(t: Task) {
    t.BeforeTakeDirty? || t.BeforeSnapshot? || t.Stating? || t.BeforeDrop?
  }

  ghost predicate BeforeVictims(t: Task) {
    BeforeDirty(t) || t.Measuring? || t.Setting? || t.BeforeTakeVictims?
  }

  /** No lost maintenance: work is never left behind without something that will lead to it. */
  ghost predicate WorkIsScheduled(c: Config, s: State) {
    || s.task.Stopped?
    || s.permit || NotifyDue(s)
    || ((s.idx.dirty != {} ==> BeforeDirty(s.task)) && (s.idx.total > c.cap ==> BeforeVictims(s.task)))
  }

  ghost predicate Inv(c: Config, s: State) {
    && s.idx.Valid()
    && WorkIsScheduled(c, s)
    && (forall n :: InvAt(c, s, n))
    && forall d :: DebrisExplained(s, d)
  }

  // ---------------------------------------------------------------------------------
  // Every step keeps the invariants
  // ---------------------------------------------------------------------------------

  predicate ReportStep(step: Step) {
    step.StepCloneRename? || step.StepWrite? || step.StepMark? || step.StepRelease? || step.StepAbandon?
  }

  lemma ReportKeepsInvAt(c: Config, s: State, step: Step, n: string)
    requires Listed(s.idx) && ReportStep(step) && PullEnabled(c, s, step) && InvAt(c, s, n)
    ensures InvAt(c, PullNext(c, s, step), n)
  {
  }

  lemma QuietPullKeepsInvAt(c: Config, s: State, step: Step, n: string)
    requires Listed(s.idx) && PullStep(step) && !ReportStep(step) && PullEnabled(c, s, step) && InvAt(c, s, n)
    ensures InvAt(c, PullNext(c, s, step), n)
  {
  }

  lemma PullKeepsInvAt(c: Config, s: State, step: Step, n: string)
    requires Listed(s.idx) && PullStep(step) && PullEnabled(c, s, step) && InvAt(c, s, n)
    ensures InvAt(c, PullNext(c, s, step), n)
  {
    if ReportStep(step) {
      ReportKeepsInvAt(c, s, step, n);
    } else {
      QuietPullKeepsInvAt(c, s, step, n);
    }
  }

  predicate PlaceStep(step: Step) { step.StepStoreRename? || step.StepRecord? || step.StepWake? }

  lemma PlaceKeepsInvAt(c: Config, s: State, step: Step, n: string)
    requires Listed(s.idx) && PlaceStep(step) && StoreEnabled(c, s, step) && InvAt(c, s, n)
    ensures InvAt(c, StoreNext(c, s, step), n)
  {
  }

  lemma DownloadKeepsInvAt(c: Config, s: State, step: Step, n: string)
    requires Listed(s.idx) && StoreStep(step) && !PlaceStep(step) && StoreEnabled(c, s, step) && InvAt(c, s, n)
    ensures InvAt(c, StoreNext(c, s, step), n)
  {
  }

  lemma StoreKeepsInvAt(c: Config, s: State, step: Step, n: string)
    requires Listed(s.idx) && StoreStep(step) && StoreEnabled(c, s, step) && InvAt(c, s, n)
    ensures InvAt(c, StoreNext(c, s, step), n)
  {
    if PlaceStep(step) {
      PlaceKeepsInvAt(c, s, step, n);
    } else {
      DownloadKeepsInvAt(c, s, step, n);
    }
  }

  lemma WalkKeepsInvAt(c: Config, s: State, step: Step, n: string)
    requires Listed(s.idx) && WalkStep(step) && MeasureEnabled(c, s, step) && InvAt(c, s, n)
    ensures InvAt(c, MeasureNext(c, s, step), n)
  {
  }

  lemma SettleKeepsInvAt(c: Config, s: State, step: Step, n: string)
    requires Listed(s.idx) && SettleStep(step) && MeasureEnabled(c, s, step) && InvAt(c, s, n)
    ensures InvAt(c, MeasureNext(c, s, step), n)
  {
  }

  lemma EvictLockKeepsInvAt(c: Config, s: State, m: string, n: string)
    requires Listed(s.idx) && EvictEnabled(c, s, StepEvictLock(m)) && InvAt(c, s, n)
    ensures InvAt(c, EvictNext(c, s, StepEvictLock(m)), n)
  {
  }

  lemma UnlinkKeepsInvAt(c: Config, s: State, m: string, ok: bool, n: string)
    requires Listed(s.idx) && EvictEnabled(c, s, StepUnlinkBlob(m, ok)) && InvAt(c, s, n)
    ensures InvAt(c, EvictNext(c, s, StepUnlinkBlob(m, ok)), n)
  {
  }

  lemma EvictMirrorKeepsInvAt(c: Config, s: State, ok: bool, n: string)
    requires Listed(s.idx) && s.task.EvictHolding? && InvAt(c, s, n)
    ensures InvAt(c, EvictNext(c, s, StepEvictMirror(ok)), n)
  {
  }

  lemma TrashRemovedKeepsInvAt(c: Config, s: State, left: u64, n: string)
    requires Listed(s.idx) && EvictEnabled(c, s, StepTrashRemoved(left)) && InvAt(c, s, n)
    ensures InvAt(c, EvictNext(c, s, StepTrashRemoved(left)), n)
  {
  }

  lemma TakeVictimsKeepsInvAt(c: Config, s: State, n: string)
    requires s.idx.Valid() && s.task.BeforeTakeVictims? && InvAt(c, s, n)
    ensures InvAt(c, EvictNext(c, s, StepTakeVictims), n)
  {
    VictimOrKept(s.idx, c.cap, n);
    var (idx, vs) := TakeVictims(s.idx, c.cap);
    PoppedKeepsInvAt(c, s, idx, Members(vs), n);
  }

  lemma PoppedKeepsInvAt(c: Config, s: State, idx: Inner, queue: set<string>, n: string)
    requires s.task.BeforeTakeVictims? && InvAt(c, s, n) && idx.dirty == s.idx.dirty
    requires n in s.idx.sizes <==> n in idx.sizes || n in queue
    requires !(n in idx.sizes && n in queue)
    requires n in idx.sizes ==> idx.sizes[n] == s.idx.sizes[n]
    ensures InvAt(c, s.(idx := idx, task := Evicting(queue)), n)
  {
  }

  lemma VictimOrKept(idx: Inner, cap: u64, n: string)
    requires idx.Valid()
    ensures var (r, vs) := TakeVictims(idx, cap);
            && r.Valid() && r.total <= cap && r.dirty == idx.dirty
            && (n in idx.sizes <==> n in r.sizes || n in vs)
            && !(n in r.sizes && n in vs)
            && (n in r.sizes ==> r.sizes[n] == idx.sizes[n])
  {
    VictimsAreShortestTail(idx, cap);
  }

  lemma EvictKeepsInvAt(c: Config, s: State, step: Step, n: string)
    requires s.idx.Valid() && EvictStep(step) && EvictEnabled(c, s, step) && InvAt(c, s, n)
    ensures InvAt(c, EvictNext(c, s, step), n)
  {
    match step
    case StepTakeVictims => TakeVictimsKeepsInvAt(c, s, n);
    case StepEvictLock(m) => EvictLockKeepsInvAt(c, s, m, n);
    case StepEvictMirror(ok) => EvictMirrorKeepsInvAt(c, s, ok, n);
    case StepTrashRemoved(left) => TrashRemovedKeepsInvAt(c, s, left, n);
    case StepUnlinkBlob(m, ok) => UnlinkKeepsInvAt(c, s, m, ok, n);
    case StepEvicted =>
  }

  lemma StatKeepsInvAt(c: Config, s: State, m: string, notFound: bool, n: string)
    requires Listed(s.idx) && ReconcileEnabled(c, s, StepStat(m, notFound)) && InvAt(c, s, n)
    ensures InvAt(c, ReconcileNext(c, s, StepStat(m, notFound)), n)
  {
  }

  lemma WaitKeepsInvAt(c: Config, s: State, step: Step, n: string)
    requires Listed(s.idx) && ReconcileStep(step) && !step.StepDrop? && !step.StepStat?
    requires ReconcileEnabled(c, s, step) && InvAt(c, s, n)
    ensures InvAt(c, ReconcileNext(c, s, step), n)
  {
  }

  lemma ReconcileKeepsInvAt(c: Config, s: State, step: Step, n: string)
    requires s.idx.Valid() && ReconcileStep(step) && ReconcileEnabled(c, s, step) && InvAt(c, s, n)
    ensures InvAt(c, ReconcileNext(c, s, step), n)
  {
    if step.StepDrop? {
      DroppedUnlessDirty(s.idx, s.task.missing, n);
    } else if step.StepStat? {
      StatKeepsInvAt(c, s, step.n, step.notFound, n);
    } else {
      WaitKeepsInvAt(c, s, step, n);
    }
  }

  lemma HandDeleteKeepsInvAt(c: Config, s: State, m: string, n: string)
    requires Listed(s.idx) && EnvironmentEnabled(c, s, StepHandDelete(m)) && InvAt(c, s, n)
    ensures InvAt(c, EnvironmentNext(c, s, StepHandDelete(m)), n)
  {
  }

  lemma LateRenameKeepsInvAt(c: Config, s: State, m: string, size: u64, n: string)
    requires Listed(s.idx) && EnvironmentEnabled(c, s, StepLateRename(m, size)) && InvAt(c, s, n)
    ensures InvAt(c, EnvironmentNext(c, s, StepLateRename(m, size)), n)
  {
  }

  lemma GcKeepsInvAt(c: Config, s: State, m: string, size: u64, n: string)
    requires Listed(s.idx) && EnvironmentEnabled(c, s, StepGc(m, size)) && InvAt(c, s, n)
    ensures InvAt(c, EnvironmentNext(c, s, StepGc(m, size)), n)
  {
  }

  lemma SweepKeepsInvAt(c: Config, s: State, d: Debris, n: string)
    requires Listed(s.idx) && EnvironmentEnabled(c, s, StepSweep(d)) && InvAt(c, s, n)
    ensures InvAt(c, EnvironmentNext(c, s, StepSweep(d)), n)
  {
  }

  lemma StartupHasInvAt(c: Config, disk: map<string, u64>, residue: map<Debris, u64>, order: seq<string>, n: string)
    requires forall m :: m in order <==> m in disk
    ensures InvAt(c, Startup(c, disk, residue, order), n)
  {
  }

  lemma EnvironmentKeepsInvAt(c: Config, s: State, step: Step, n: string)
    requires Listed(s.idx) && EnvironmentStep(step) && EnvironmentEnabled(c, s, step) && InvAt(c, s, n)
    ensures InvAt(c, EnvironmentNext(c, s, step), n)
  {
    match step
    case StepHandDelete(m) => HandDeleteKeepsInvAt(c, s, m, n);
    case StepLateRename(m, size) => LateRenameKeepsInvAt(c, s, m, size, n);
    case StepGc(m, size) => GcKeepsInvAt(c, s, m, size, n);
    case StepSweep(d) => SweepKeepsInvAt(c, s, d, n);
    case StepRestart(order) => StartupHasInvAt(c, s.disk, s.residue, order, n);
  }

  lemma StepKeepsInvAt(c: Config, s: State, step: Step, n: string)
    requires s.idx.Valid() && Enabled(c, s, step) && InvAt(c, s, n)
    ensures InvAt(c, Next(c, s, step), n)
  {
    if PullStep(step) {
      PullKeepsInvAt(c, s, step, n);
    } else if StoreStep(step) {
      StoreKeepsInvAt(c, s, step, n);
    } else if WalkStep(step) {
      WalkKeepsInvAt(c, s, step, n);
    } else if SettleStep(step) {
      SettleKeepsInvAt(c, s, step, n);
    } else if EvictStep(step) {
      EvictKeepsInvAt(c, s, step, n);
    } else if ReconcileStep(step) {
      ReconcileKeepsInvAt(c, s, step, n);
    } else {
      EnvironmentKeepsInvAt(c, s, step, n);
    }
  }

  lemma PullKeepsValid(c: Config, s: State, step: Step)
    requires s.idx.Valid() && PullStep(step) && PullEnabled(c, s, step)
    ensures PullNext(c, s, step).idx.Valid()
  {
    if step.StepTouch? {
      TouchKeepsValid(s.idx, step.n);
    } else if step.StepMark? {
      MarkChangedKeepsValid(s.idx, step.n);
    }
  }

  lemma StoreKeepsValid(c: Config, s: State, step: Step)
    requires s.idx.Valid() && StoreStep(step) && StoreEnabled(c, s, step)
    ensures StoreNext(c, s, step).idx.Valid()
  {
    if step.StepRecord? { RecordBlobKeepsValid(s.idx, step.n, s.reqs[step.n].size); }
  }

  lemma MeasureKeepsValid(c: Config, s: State, step: Step)
    requires s.idx.Valid() && MeasureStep(step) && MeasureEnabled(c, s, step)
    ensures MeasureNext(c, s, step).idx.Valid()
  {
    if step.StepSetSize? { SetSizeKeepsValid(s.idx, step.n, s.task.done[step.n]); }
  }

  lemma EvictKeepsValid(c: Config, s: State, step: Step)
    requires s.idx.Valid() && EvictStep(step) && EvictEnabled(c, s, step)
    ensures EvictNext(c, s, step).idx.Valid()
  {
    if step.StepTakeVictims? { VictimOrKept(s.idx, c.cap, ""); }
  }

  lemma ReconcileKeepsValid(c: Config, s: State, step: Step)
    requires s.idx.Valid() && ReconcileStep(step) && ReconcileEnabled(c, s, step)
    ensures ReconcileNext(c, s, step).idx.Valid()
  {
    if step.StepDrop? { DroppedUnlessDirty(s.idx, s.task.missing, ""); }
  }

  lemma StepKeepsValid(c: Config, s: State, step: Step)
    requires s.idx.Valid() && Enabled(c, s, step)
    ensures Next(c, s, step).idx.Valid()
  {
    if PullStep(step) {
      PullKeepsValid(c, s, step);
    } else if StoreStep(step) {
      StoreKeepsValid(c, s, step);
    } else if MeasureStep(step) {
      MeasureKeepsValid(c, s, step);
    } else if EvictStep(step) {
      EvictKeepsValid(c, s, step);
    } else if ReconcileStep(step) {
      ReconcileKeepsValid(c, s, step);
    }
  }

  /** A notification that is due stays due until it is given: by a request's step, `n`'s own included. */
  lemma ReportKeepsNotifyDue(c: Config, s: State, step: Step, n: string)
    requires Listed(s.idx) && ReportStep(step) && PullEnabled(c, s, step) && NotifyDueAt(s, n)
    ensures var s' := PullNext(c, s, step); s'.permit || NotifyDueAt(s', n)
  {
  }

  lemma QuietPullKeepsNotifyDue(c: Config, s: State, step: Step, n: string)
    requires Listed(s.idx) && PullStep(step) && !ReportStep(step) && PullEnabled(c, s, step) && NotifyDueAt(s, n)
    ensures var s' := PullNext(c, s, step); s'.permit || NotifyDueAt(s', n)
  {
  }

  lemma PullKeepsNotifyDue(c: Config, s: State, step: Step, n: string)
    requires Listed(s.idx) && PullStep(step) && PullEnabled(c, s, step) && NotifyDueAt(s, n)
    ensures var s' := PullNext(c, s, step); s'.permit || NotifyDueAt(s', n)
  {
    if ReportStep(step) {
      ReportKeepsNotifyDue(c, s, step, n);
    } else {
      QuietPullKeepsNotifyDue(c, s, step, n);
    }
  }

  lemma StoreKeepsNotifyDue(c: Config, s: State, step: Step, n: string)
    requires Listed(s.idx) && StoreStep(step) && StoreEnabled(c, s, step) && NotifyDueAt(s, n)
    ensures var s' := StoreNext(c, s, step); s'.permit || NotifyDueAt(s', n)
  {
  }

  lemma SameRequestsSameDue(s: State, s': State)
    requires s'.reqs == s.reqs && NotifyDue(s)
    ensures NotifyDue(s')
  {
    var n :| NotifyDueAt(s, n);
    assert NotifyDueAt(s', n);
  }

  lemma PullKeepsWorkScheduled(c: Config, s: State, step: Step)
    requires Listed(s.idx) && PullStep(step) && PullEnabled(c, s, step) && WorkIsScheduled(c, s)
    ensures WorkIsScheduled(c, PullNext(c, s, step))
  {
    if step.StepMark? {
      assert NotifyDueAt(PullNext(c, s, step), step.n);
    } else if NotifyDue(s) {
      var n :| NotifyDueAt(s, n);
      PullKeepsNotifyDue(c, s, step, n);
    }
  }

  lemma StoreKeepsWorkScheduled(c: Config, s: State, step: Step)
    requires Listed(s.idx) && StoreStep(step) && StoreEnabled(c, s, step) && WorkIsScheduled(c, s)
    ensures WorkIsScheduled(c, StoreNext(c, s, step))
  {
    if step.StepRecord? {
      assert NotifyDueAt(StoreNext(c, s, step), step.n);
    } else if NotifyDue(s) {
      var n :| NotifyDueAt(s, n);
      StoreKeepsNotifyDue(c, s, step, n);
    }
  }

  lemma MeasureKeepsWorkScheduled(c: Config, s: State, step: Step)
    requires Listed(s.idx) && MeasureStep(step) && MeasureEnabled(c, s, step) && WorkIsScheduled(c, s)
    ensures WorkIsScheduled(c, MeasureNext(c, s, step))
  {
    if NotifyDue(s) { SameRequestsSameDue(s, MeasureNext(c, s, step)); }
  }

  lemma EvictKeepsWorkScheduled(c: Config, s: State, step: Step)
    requires s.idx.Valid() && EvictStep(step) && EvictEnabled(c, s, step) && WorkIsScheduled(c, s)
    ensures WorkIsScheduled(c, EvictNext(c, s, step))
  {
    if NotifyDue(s) { SameRequestsSameDue(s, EvictNext(c, s, step)); }
    if step.StepTakeVictims? { VictimOrKept(s.idx, c.cap, ""); }
  }

  lemma ReconcileKeepsWorkScheduled(c: Config, s: State, step: Step)
    requires s.idx.Valid() && ReconcileStep(step) && ReconcileEnabled(c, s, step) && WorkIsScheduled(c, s)
    ensures WorkIsScheduled(c, ReconcileNext(c, s, step))
  {
    if NotifyDue(s) { SameRequestsSameDue(s, ReconcileNext(c, s, step)); }
  }

  lemma EnvironmentKeepsWorkScheduled(c: Config, s: State, step: Step)
    requires Listed(s.idx) && EnvironmentStep(step) && EnvironmentEnabled(c, s, step) && WorkIsScheduled(c, s)
    ensures WorkIsScheduled(c, EnvironmentNext(c, s, step))
  {
    if NotifyDue(s) && !step.StepRestart? { SameRequestsSameDue(s, EnvironmentNext(c, s, step)); }
  }

  lemma StepKeepsWorkScheduled(c: Config, s: State, step: Step)
    requires s.idx.Valid() && Enabled(c, s, step) && WorkIsScheduled(c, s)
    ensures WorkIsScheduled(c, Next(c, s, step))
  {
    if PullStep(step) {
      PullKeepsWorkScheduled(c, s, step);
    } else if StoreStep(step) {
      StoreKeepsWorkScheduled(c, s, step);
    } else if MeasureStep(step) {
      MeasureKeepsWorkScheduled(c, s, step);
    } else if EvictStep(step) {
      EvictKeepsWorkScheduled(c, s, step);
    } else if ReconcileStep(step) {
      ReconcileKeepsWorkScheduled(c, s, step);
    } else {
      EnvironmentKeepsWorkScheduled(c, s, step);
    }
  }

  // Nothing is left lying about unnoticed.

  lemma PullExplainsDebris(c: Config, s: State, step: Step, d: Debris)
    requires Listed(s.idx) && PullStep(step) && PullEnabled(c, s, step) && DebrisExplained(s, d)
    ensures DebrisExplained(PullNext(c, s, step), d)
  {
    var s' := PullNext(c, s, step);
    if d.Temp? && d in s'.residue && d in s.residue && d !in s.littered {
      var n :| n in s.reqs && s.reqs[n] == Downloading(d.id);
      if step.n != n { assert n in s'.reqs && s'.reqs[n] == Downloading(d.id); }
    }
    if step.n in s'.reqs && s'.reqs[step.n].Downloading? { assert InUse(s', Temp(s'.reqs[step.n].id)); }
  }

  lemma StoreExplainsDebris(c: Config, s: State, step: Step, d: Debris)
    requires Listed(s.idx) && StoreStep(step) && StoreEnabled(c, s, step) && DebrisExplained(s, d)
    ensures DebrisExplained(StoreNext(c, s, step), d)
  {
    var s' := StoreNext(c, s, step);
    if d.Temp? && d in s'.residue && d in s.residue && d !in s.littered {
      var n :| n in s.reqs && s.reqs[n] == Downloading(d.id);
      if step.n != n { assert n in s'.reqs && s'.reqs[n] == Downloading(d.id); }
    }
    if step.n in s'.reqs && s'.reqs[step.n].Downloading? { assert InUse(s', Temp(s'.reqs[step.n].id)); }
  }

  lemma MeasureExplainsDebris(c: Config, s: State, step: Step, d: Debris)
    requires Listed(s.idx) && MeasureStep(step) && MeasureEnabled(c, s, step) && DebrisExplained(s, d)
    ensures DebrisExplained(MeasureNext(c, s, step), d)
  {
  }

  lemma EvictExplainsDebris(c: Config, s: State, step: Step, d: Debris)
    requires Listed(s.idx) && EvictStep(step) && EvictEnabled(c, s, step) && DebrisExplained(s, d)
    ensures DebrisExplained(EvictNext(c, s, step), d)
  {
  }

  lemma ReconcileExplainsDebris(c: Config, s: State, step: Step, d: Debris)
    requires Listed(s.idx) && ReconcileStep(step) && ReconcileEnabled(c, s, step) && DebrisExplained(s, d)
    ensures DebrisExplained(ReconcileNext(c, s, step), d)
  {
  }

  lemma EnvironmentExplainsDebris(c: Config, s: State, step: Step, d: Debris)
    requires Listed(s.idx) && EnvironmentStep(step) && EnvironmentEnabled(c, s, step) && DebrisExplained(s, d)
    ensures DebrisExplained(EnvironmentNext(c, s, step), d)
  {
  }

  lemma StepExplainsDebris(c: Config, s: State, step: Step, d: Debris)
    requires Listed(s.idx) && Enabled(c, s, step) && DebrisExplained(s, d)
    ensures DebrisExplained(Next(c, s, step), d)
  {
    if PullStep(step) {
      PullExplainsDebris(c, s, step, d);
    } else if StoreStep(step) {
      StoreExplainsDebris(c, s, step, d);
    } else if MeasureStep(step) {
      MeasureExplainsDebris(c, s, step, d);
    } else if EvictStep(step) {
      EvictExplainsDebris(c, s, step, d);
    } else if ReconcileStep(step) {
      ReconcileExplainsDebris(c, s, step, d);
    } else {
      EnvironmentExplainsDebris(c, s, step, d);
    }
  }

  lemma StepKeepsInv(c: Config, s: State, step: Step)
    requires Inv(c, s) && Enabled(c, s, step)
    ensures Inv(c, Next(c, s, step))
  {
    StepKeepsValid(c, s, step);
    StepKeepsWorkScheduled(c, s, step);
    forall n ensures InvAt(c, Next(c, s, step), n) {
      assert InvAt(c, s, n);
      StepKeepsInvAt(c, s, step, n);
    }
    forall d ensures DebrisExplained(Next(c, s, step), d) {
      assert DebrisExplained(s, d);
      StepExplainsDebris(c, s, step, d);
    }
  }

  // ---------------------------------------------------------------------------------
  // Runs from startup
  // ---------------------------------------------------------------------------------

  ghost predicate IsStartup(disk: map<string, u64>, order: seq<string>) {
    Distinct(order) && forall n :: n in order <==> n in disk
  }

  lemma StartupHasInv(c: Config, disk: map<string, u64>, residue: map<Debris, u64>, order: seq<string>)
    requires IsStartup(disk, order)
    ensures Inv(c, Startup(c, disk, residue, order))
    ensures var s := Startup(c, disk, residue, order);
            (s.permit <==> s.idx.total > c.cap) && s.task == BeforeTakeDirty && s.disk == disk && s.residue == residue
  {
  }

  /** The state after taking `steps` in order, or `Blocked` if one of them was not enabled. (The
      access order never lists a name without a size: that is part of the invariant.) */
  ghost function After(c: Config, s: State, steps: seq<Step>): RunResult<State>
    decreases |steps|
  {
    if steps == [] then Reached(s)
    else if Listed(s.idx) && Enabled(c, s, steps[0]) then After(c, Next(c, s, steps[0]), steps[1..])
    else Blocked
  }

  ghost function Run(c: Config, disk: map<string, u64>, residue: map<Debris, u64>, order: seq<string>, steps: seq<Step>): RunResult<State>
    requires IsStartup(disk, order)
  {
    After(c, Startup(c, disk, residue, order), steps)
  }

  /** Every run stays within the invariants, whatever the interleaving. */
  lemma {:induction false} InvAlways(c: Config, s: State, steps: seq<Step>)
    requires Inv(c, s) && After(c, s, steps).Reached?
    ensures Inv(c, After(c, s, steps).state)
    decreases |steps|
  {
    if steps != [] {
      StepKeepsInv(c, s, steps[0]);
      InvAlways(c, Next(c, s, steps[0]), steps[1..]);
    }
  }

  lemma RunKeepsInv(c: Config, disk: map<string, u64>, residue: map<Debris, u64>, order: seq<string>, steps: seq<Step>)
    requires IsStartup(disk, order) && Run(c, disk, residue, order, steps).Reached?
    ensures Inv(c, Run(c, disk, residue, order, steps).state)
  {
    StartupHasInv(c, disk, residue, order);
    InvAlways(c, Startup(c, disk, residue, order), steps);
  }

  /** No lost maintenance, over every run: while a name waits to be measured, or the total is over
      the cap, a permit is stored, or the pass under way has not reached that work, or a mutator
      has yet to call `notify_one`. So when nothing is pending there is nothing left to do. */
  lemma NoLostMaintenance(c: Config, disk: map<string, u64>, residue: map<Debris, u64>, order: seq<string>, steps: seq<Step>)
    requires IsStartup(disk, order) && Run(c, disk, residue, order, steps).Reached?
    ensures var s := Run(c, disk, residue, order, steps).state;
            && (s.idx.dirty != {} ==> s.permit || NotifyDue(s) || BeforeDirty(s.task) || s.task.Stopped?)
            && (s.idx.total > c.cap ==> s.permit || NotifyDue(s) || BeforeVictims(s.task) || s.task.Stopped?)
            && (s.task.Waiting? && !s.permit && s.reqs == map[] ==> s.idx.dirty == {} && s.idx.total <= c.cap)
  {
    RunKeepsInv(c, disk, residue, order, steps);
  }

  /** Index and disk agree, over every run: a tracked name on disk has its true size unless it is
      dirty, in the batch being measured, being changed by the holder of its lock, or was left
      changed by a request that released its lock without reporting (a failed upstream operation,
      or the pruning that follows a want-fetch's mark) or by git's own maintenance, had its measurement lost to a panic or fall
      short of something unreadable, or is an object whose length could not be read when it was
      stored. */
  lemma SizesAgreeWithDisk(c: Config, disk: map<string, u64>, residue: map<Debris, u64>, order: seq<string>, steps: seq<Step>, n: string)
    requires IsStartup(disk, order) && Run(c, disk, residue, order, steps).Reached?
    ensures var s := Run(c, disk, residue, order, steps).state;
            n in s.disk && n in s.idx.sizes ==>
              || s.idx.sizes[n] == s.disk[n]
              || n in s.idx.dirty || n in Batch(s.task)
              || n in s.faulted || (n in s.unflagged && n in s.reqs)
  {
    RunKeepsInv(c, disk, residue, order, steps);
    var s := Run(c, disk, residue, order, steps).state;
    assert InvAt(c, s, n);
  }

  /** Nothing on disk escapes accounting, over every run. */
  lemma NothingEscapes(c: Config, disk: map<string, u64>, residue: map<Debris, u64>, order: seq<string>, steps: seq<Step>, n: string)
    requires IsStartup(disk, order) && Run(c, disk, residue, order, steps).Reached?
    ensures Accounted(c, Run(c, disk, residue, order, steps).state, n)
  {
    RunKeepsInv(c, disk, residue, order, steps);
    var s := Run(c, disk, residue, order, steps).state;
    assert InvAt(c, s, n);
  }

  // ---------------------------------------------------------------------------------
  // What the cap is for: the bytes really on disk
  // ---------------------------------------------------------------------------------

  /** The bytes of a map, added up in any order. */
  ghost function Bytes<K>(m: map<K, u64>): nat
    decreases |m|
  {
    if m == map[] then 0 else
      var k :| k in m;
      m[k] + Bytes(m - {k})
  }

  lemma {:induction false} BytesRemove<K>(m: map<K, u64>, k: K)
    requires k in m
    ensures Bytes(m) == m[k] + Bytes(m - {k})
    decreases |m|
  {
    var p :| p in m && Bytes(m) == m[p] + Bytes(m - {p});
    if p != k {
      BytesRemove(m - {p}, k);
      BytesRemove(m - {k}, p);
      assert m - {p} - {k} == m - {k} - {p};
    }
  }

  lemma BytesAdd<K>(m: map<K, u64>, k: K, b: u64)
    requires k !in m
    ensures Bytes(m[k := b]) == Bytes(m) + b
  {
    BytesRemove(m[k := b], k);
    assert m[k := b] - {k} == m;
  }

  /** All the bytes in the cache directory. */
  ghost function AllBytes(s: State): nat { Bytes(s.disk) + Bytes(s.residue) }

  /** Evicting a mirror frees nothing by itself: its bytes move to the trash, and only what the removal
      takes away is gone. */
  lemma EvictionFreesWhatItRemoves(c: Config, s: State, left: u64)
    requires Listed(s.idx) && s.task.EvictHolding? && s.task.name in s.disk && Trash(s.task.name) !in s.residue
    ensures var s1 := EvictNext(c, s, StepEvictMirror(true));
            && AllBytes(s1) == AllBytes(s)
            && (left <= s.disk[s.task.name] ==>
                  AllBytes(EvictNext(c, s1, StepTrashRemoved(left))) == AllBytes(s) - s.disk[s.task.name] + left)
  {
    var n, size := s.task.name, s.disk[s.task.name];
    var s1 := EvictNext(c, s, StepEvictMirror(true));
    BytesRemove(s.disk, n);
    BytesAdd(s.residue, Trash(n), size);
    assert s1.residue - {Trash(n)} == s.residue;
    if left <= size {
      BytesAdd(s.residue, Trash(n), left);
      assert s1.residue[Trash(n) := left] == s.residue[Trash(n) := left];
    }
  }

  lemma {:induction false} BytesWithinSum(m: map<string, u64>, order: seq<string>, sizes: map<string, u64>)
    requires forall n :: n in order ==> n in sizes
    requires forall n :: n in m ==> n in order && m[n] == sizes[n]
    ensures Bytes(m) <= Sum(order, sizes)
    decreases |order|
  {
    if order == [] {
      assert m == map[];
    } else {
      var k := |order| - 1;
      assert order == order[..k] + [order[k]];
      var n := order[k];
      if n in m {
        BytesRemove(m, n);
        BytesWithinSum(m - {n}, order[..k], sizes);
      } else {
        BytesWithinSum(m, order[..k], sizes);
      }
    }
  }

  /** The evictor waits without a permit and no request is in flight. */
  ghost predicate AtRest(s: State) { s.task.Waiting? && !s.permit && s.reqs == map[] }

  /** At rest and with no fault outstanding, the mirrors and objects on disk are within the configured
      cap, and whatever else is there was left lying about; so if nothing was, the whole cache
      directory is within the cap. */
  lemma QuiescentDiskWithinCap(
    c: Config, disk: map<string, u64>, residue: map<Debris, u64>, order: seq<string>, steps: seq<Step>)
    requires IsStartup(disk, order) && Run(c, disk, residue, order, steps).Reached?
    ensures var s := Run(c, disk, residue, order, steps).state;
            && s.idx.Valid()
            && (AtRest(s) ==> s.residue.Keys <= s.littered)
            && (&& AtRest(s) && s.faulted == {} && s.failed == {} && s.abandoned == {} && s.disturbed == {}
                && Sum(s.idx.order, s.idx.sizes) < U64_MOD
                ==> Bytes(s.disk) <= c.cap && (s.littered == {} ==> AllBytes(s) <= c.cap))
  {
    RunKeepsInv(c, disk, residue, order, steps);
    var s := Run(c, disk, residue, order, steps).state;
    if AtRest(s) {
      forall d | d in s.residue ensures d in s.littered { assert DebrisExplained(s, d); }
      if && s.faulted == {} && s.failed == {} && s.abandoned == {} && s.disturbed == {}
         && Sum(s.idx.order, s.idx.sizes) < U64_MOD
      {
        TrackedWithinCap(c, s);
        if s.littered == {} { assert s.residue == map[]; }
      }
    }
  }

  lemma TrackedWithinCap(c: Config, s: State)
    requires Inv(c, s) && AtRest(s) && s.faulted == {} && s.failed == {} && s.abandoned == {} && s.disturbed == {}
    requires Sum(s.idx.order, s.idx.sizes) < U64_MOD
    ensures Bytes(s.disk) <= c.cap
  {
    forall n | n in s.disk ensures n in s.idx.order && s.disk[n] == s.idx.sizes[n] { assert InvAt(c, s, n); }
    BytesWithinSum(s.disk, s.idx.order, s.idx.sizes);
  }

  // ---------------------------------------------------------------------------------
  // The way out: an object deleted by hand and stored again during a reconcile
  // ---------------------------------------------------------------------------------

  /** A reconcile drops a name that is on disk, and leaves it unaccounted for, exactly when it was
      missing at the stat and is either an object recorded since or a mirror whose request was
      dropped before the report and that no one has marked again. */
  lemma DropLosesExactly(c: Config, s: State, n: string)
    requires Inv(c, s) && s.task.BeforeDrop? && n in s.disk && n in s.idx.sizes
    ensures var s' := Next(c, s, StepDrop);
            (n !in s'.idx.sizes && !AboutToReport(s', n))
            <==> && n in s.task.missing && !AboutToReport(s, n)
                 && (c.blob(n) || (n in s.abandoned && n !in s.idx.dirty))
  {
    DroppedUnlessDirty(s.idx, s.task.missing, n);
    assert MissingSafe(c, s, n) && PhaseFits(c, s, n) by { assert InvAt(c, s, n); }
    DropKeepsRequests(c, s);
  }

  lemma DropKeepsRequests(c: Config, s: State)
    requires Listed(s.idx) && s.task.BeforeDrop?
    ensures var s' := Next(c, s, StepDrop);
            s'.reqs == s.reqs && s'.idx == DropMissing(s.idx, s.task.missing)
  {
  }

  lemma DroppedUnlessDirty(idx: Inner, missing: seq<string>, n: string)
    requires idx.Valid()
    ensures var r := DropMissing(idx, missing);
            && r.Valid() && r.dirty == idx.dirty
            && (n in r.sizes <==> n in idx.sizes && (n in missing ==> n in idx.dirty))
            && (n in r.sizes ==> r.sizes[n] == idx.sizes[n])
  {
    DropMissingEffect(idx, missing);
  }

  /** Some run from `s0` leads to `s`. */
  ghost predicate Reachable(c: Config, s0: State, s: State) { exists t :: After(c, s0, t) == Reached(s) }

  /** It happens: one object, deleted by hand, seen missing, downloaded again and recorded, and
      then dropped from the index while it sits on disk. */
  lemma HandDeletedObjectEscapes(c: Config, key: string, size: u64)
    requires c.blob(key) && size <= c.cap
    ensures exists steps ::
              var r := Run(c, map[key := size], map[], [key], steps);
              r.Reached? && key in r.state.disk && key !in r.state.idx.sizes && r.state.reqs == map[]
              && key !in Queue(r.state.task) && key !in r.state.failed && key !in r.state.abandoned
  {
    var disk: map<string, u64>, residue: map<Debris, u64>, order := map[key := size], map[], [key];
    assert order[..0] == [];
    var s0 := Startup(c, disk, residue, order);
    assert Sum(order, disk) == size;
    assert After(c, s0, []) == Reached(s0);
    var s := Snapshot(c, s0);
    assert s.task == Stating({key}, []);
    s := SeenMissing(c, s0, s, key);
    s := StoredAgain(c, s0, s, key, size);
    s := DroppedFromIndex(c, s0, s, key);
    var t :| After(c, s0, t) == Reached(s);
    assert Run(c, disk, residue, order, t) == Reached(s);
  }

  lemma PassOverNothing(c: Config, s0: State) returns (r: State)
    requires Listed(s0.idx) && s0.task.BeforeTakeDirty? && s0.idx.dirty == {} && s0.idx.total <= c.cap
    requires Reachable(c, s0, s0)
    ensures r == s0.(task := Waiting) && Reachable(c, s0, r)
  {
    r := NothingDirty(c, s0, s0);
    r := NothingMeasured(c, s0, r);
    r := NothingSet(c, s0, r);
    r := NothingTaken(c, s0, r);
    r := NothingEvicted(c, s0, r);
  }

  lemma NothingDirty(c: Config, s0: State, s: State) returns (r: State)
    requires Reachable(c, s0, s) && Listed(s.idx) && s.task.BeforeTakeDirty? && s.idx.dirty == {}
    ensures Reachable(c, s0, r) && r == s.(task := Measuring({}, map[]))
  {
    r := OneMore(c, s0, s, StepTakeDirty);
    assert r.idx == s.idx;
  }

  lemma NothingMeasured(c: Config, s0: State, s: State) returns (r: State)
    requires Reachable(c, s0, s) && Listed(s.idx) && s.task == Measuring({}, map[])
    ensures Reachable(c, s0, r) && r == s.(task := Setting(map[]))
  {
    r := OneMore(c, s0, s, StepMeasured);
  }

  lemma NothingSet(c: Config, s0: State, s: State) returns (r: State)
    requires Reachable(c, s0, s) && Listed(s.idx) && s.task == Setting(map[])
    ensures Reachable(c, s0, r) && r == s.(task := BeforeTakeVictims)
  {
    r := OneMore(c, s0, s, StepSizesSet);
  }

  lemma NothingTaken(c: Config, s0: State, s: State) returns (r: State)
    requires Reachable(c, s0, s) && Listed(s.idx) && s.task.BeforeTakeVictims? && s.idx.total <= c.cap
    ensures Reachable(c, s0, r) && r == s.(task := Evicting({}))
  {
    assert TakeVictims(s.idx, c.cap) == (s.idx, []) && Members([]) == {};
    r := OneMore(c, s0, s, StepTakeVictims);
  }

  lemma NothingEvicted(c: Config, s0: State, s: State) returns (r: State)
    requires Reachable(c, s0, s) && Listed(s.idx) && s.task == Evicting({})
    ensures Reachable(c, s0, r) && r == s.(task := Waiting)
  {
    r := OneMore(c, s0, s, StepEvicted);
  }

  lemma Snapshot(c: Config, s0: State) returns (r: State)
    requires Listed(s0.idx) && s0.task.BeforeTakeDirty? && s0.idx.dirty == {} && s0.idx.total <= c.cap
    requires Reachable(c, s0, s0)
    ensures r == s0.(task := Stating(s0.idx.sizes.Keys, [])) && Reachable(c, s0, r)
  {
    r := PassOverNothing(c, s0);
    r := Ticked(c, s0, r);
    r := OneMore(c, s0, r, StepSnapshot);
  }

  lemma Ticked(c: Config, s0: State, s: State) returns (r: State)
    requires Reachable(c, s0, s) && Listed(s.idx) && s.task.Waiting?
    ensures Reachable(c, s0, r) && r == s.(task := BeforeSnapshot)
  {
    r := OneMore(c, s0, s, StepTick);
  }

  lemma SeenMissing(c: Config, s0: State, s: State, key: string) returns (r: State)
    requires Reachable(c, s0, s) && Listed(s.idx) && c.blob(key)
    requires s.task == Stating({key}, []) && key in s.disk
    ensures Reachable(c, s0, r) && r.task == BeforeDrop([key]) && key !in r.disk
    ensures r.reqs == s.reqs && r.idx == s.idx && r.failed == s.failed && r.abandoned == s.abandoned
  {
    r := DeletedByHand(c, s0, s, key);
    r := StatMissing(c, s0, r, key);
    r := OneMore(c, s0, r, StepStatDone);
  }

  lemma DeletedByHand(c: Config, s0: State, s: State, key: string) returns (r: State)
    requires Reachable(c, s0, s) && Listed(s.idx) && key in s.disk
    ensures Reachable(c, s0, r) && r == s.(disk := s.disk - {key}, disturbed := r.disturbed)
  {
    r := OneMore(c, s0, s, StepHandDelete(key));
  }

  lemma StatMissing(c: Config, s0: State, s: State, key: string) returns (r: State)
    requires Reachable(c, s0, s) && Listed(s.idx) && s.task == Stating({key}, []) && key !in s.disk
    ensures Reachable(c, s0, r) && r == s.(task := Stating({}, [key]))
  {
    assert {key} - {key} == {} && [] + [key] == [key];
    r := OneMore(c, s0, s, StepStat(key, true));
  }

  lemma StoredAgain(c: Config, s0: State, s: State, key: string, size: u64) returns (r: State)
    requires Reachable(c, s0, s) && s.idx.Valid() && c.blob(key)
    requires s.task.BeforeDrop? && key !in s.disk && s.reqs == map[]
    ensures Reachable(c, s0, r) && r.idx.Valid() && r.task == s.task && key in r.disk && r.reqs == map[]
    ensures r.idx.dirty == s.idx.dirty && r.failed == s.failed - {key} && r.abandoned == s.abandoned - {key}
  {
    r := Placed(c, s0, s, key, size);
    r := Recorded(c, s0, r, key, size);
    r := Woken(c, s0, r, key);
  }

  lemma Recorded(c: Config, s0: State, s: State, key: string, size: u64) returns (r: State)
    requires Reachable(c, s0, s) && s.idx.Valid() && s.reqs == map[key := MustRecord(size)]
    ensures Reachable(c, s0, r) && r.idx.Valid() && r.idx.dirty == s.idx.dirty && r.task == s.task && r.disk == s.disk
    ensures r.reqs == map[key := MustWake]
    ensures r.failed == s.failed - {key} && r.abandoned == s.abandoned - {key}
  {
    RecordedThen(c, s, key, size);
    StoreKeepsValid(c, s, StepRecord(key));
    r := OneMore(c, s0, s, StepRecord(key));
  }

  lemma Woken(c: Config, s0: State, s: State, key: string) returns (r: State)
    requires Reachable(c, s0, s) && Listed(s.idx) && s.reqs == map[key := MustWake]
    ensures Reachable(c, s0, r) && r == s.(reqs := map[], permit := true, littered := r.littered)
  {
    r := OneMore(c, s0, s, StepWake(key));
  }

  lemma Placed(c: Config, s0: State, s: State, key: string, size: u64) returns (r: State)
    requires Reachable(c, s0, s) && Listed(s.idx) && c.blob(key)
    requires s.task.BeforeDrop? && key !in s.disk && s.reqs == map[]
    ensures Reachable(c, s0, r) && r.task == s.task && key in r.disk && r.reqs == map[key := MustRecord(size)]
    ensures r.idx == s.idx && r.failed == s.failed && r.abandoned == s.abandoned
  {
    r := StoreStarted(c, s0, s, key);
    r := Downloaded(c, s0, r, key, size);
    r := OneMore(c, s0, r, StepStoreRename(key, size, true));
  }

  lemma StoreStarted(c: Config, s0: State, s: State, key: string) returns (r: State)
    requires Reachable(c, s0, s) && Listed(s.idx) && c.blob(key)
    requires s.task.BeforeDrop? && key !in s.disk && s.reqs == map[]
    ensures Reachable(c, s0, r) && r == s.(reqs := map[key := Storing])
  {
    r := OneMore(c, s0, s, StepStartStore(key));
  }

  lemma Downloaded(c: Config, s0: State, s: State, key: string, size: u64) returns (r: State)
    requires Reachable(c, s0, s) && Listed(s.idx) && s.reqs == map[key := Storing]
    ensures Reachable(c, s0, r) && r == s.(reqs := r.reqs, residue := r.residue)
    ensures r.reqs.Keys == {key} && r.reqs[key].Downloading?
  {
    var id: nat := FreshId(s.residue);
    r := OneMore(c, s0, s, StepDownload(key, id, size));
  }

  /** There is always an unused name for a temporary file. */
  lemma FreshId(residue: map<Debris, u64>) returns (id: nat)
    ensures Temp(id) !in residue
  {
    var ids := set d | d in residue && d.Temp? :: d.id;
    id := Above(ids);
    assert Temp(id) in residue ==> id in ids;
  }

  lemma {:induction false} Above(ids: set<nat>) returns (top: nat)
    ensures forall i :: i in ids ==> i < top
    decreases |ids|
  {
    top := 0;
    if ids != {} {
      var x :| x in ids;
      var rest := Above(ids - {x});
      top := if rest <= x then x + 1 else rest;
      forall i | i in ids ensures i < top { assert i == x || i in ids - {x}; }
    }
  }

  lemma RecordedThen(c: Config, s: State, key: string, size: u64)
    requires Listed(s.idx) && s.reqs == map[key := MustRecord(size)]
    ensures var r := StoreNext(c, s, StepRecord(key));
            && r.idx.dirty == s.idx.dirty && r.task == s.task && r.disk == s.disk
            && r.reqs == map[key := MustWake]
            && r.failed == s.failed - {key} && r.abandoned == s.abandoned - {key}
  {
  }

  lemma DroppedFromIndex(c: Config, s0: State, s: State, key: string) returns (r: State)
    requires Reachable(c, s0, s) && s.idx.Valid()
    requires s.task == BeforeDrop([key]) && s.idx.dirty == {}
    ensures Reachable(c, s0, r) && key !in r.idx.sizes
    ensures r.disk == s.disk && r.reqs == s.reqs && r.task == BeforeTakeDirty
    ensures r.failed == s.failed && r.abandoned == s.abandoned
  {
    DroppedUnlessDirty(s.idx, [key], key);
    r := OneMore(c, s0, s, StepDrop);
  }

  lemma OneMore(c: Config, s0: State, s: State, step: Step) returns (r: State)
    requires Reachable(c, s0, s) && Listed(s.idx) && Enabled(c, s, step)
    ensures r == Next(c, s, step) && Reachable(c, s0, r)
  {
    var t :| After(c, s0, t) == Reached(s);
    Extend(c, s0, t, s, step);
    r := Next(c, s, step);
  }

  /** One more enabled step at the end of a run. */
  lemma {:induction false} Extend(c: Config, s0: State, t: seq<Step>, s: State, step: Step)
    requires After(c, s0, t) == Reached(s) && Listed(s.idx) && Enabled(c, s, step)
    ensures After(c, s0, t + [step]) == Reached(Next(c, s, step))
    decreases |t|
  {
    var t' := t + [step];
    if t == [] {
      assert t'[1..] == [];
    } else {
      assert t'[1..] == t[1..] + [step];
      Extend(c, Next(c, s0, t[0]), t[1..], s, step);
    }
  }
}
