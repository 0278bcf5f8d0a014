/** What the history fields of `Evictor` mean, in terms of the steps taken: which steps add to them,
    and what holds, without any exception, in a run in which nothing goes wrong. */
module Accounts {
  import opened Common
  import Index
  import opened Evictor

  // ---------------------------------------------------------------------------------
  // Which steps add to the history
  // ---------------------------------------------------------------------------------

  /** The size in the index may be wrong from here on: a measurement is lost, or falls short of
      something; an object is recorded at a length it does not have; a request lets go of a name it
      changed and did not report; or the bytes change behind everybody's back. */
  ghost predicate Faults(s: State, step: Step, n: string) {
    match step
    case StepMeasureLost => n in Batch(s.task)
    case StepMeasure(m, size, whole) => m == n && !whole
    case StepRecord(m) => m == n && n in s.disk && n in s.reqs && s.reqs[n].MustRecord? && s.disk[n] != s.reqs[n].size
    case StepRelease(m) => m == n && n in s.unflagged
    case StepAbandon(m) => m == n && n in s.unflagged
    case StepLateRename(m, size) => m == n
    case StepGc(m, size) => m == n
    case _ => false
  }

  ghost predicate Fails(s: State, step: Step, n: string) {
    match step
    case StepEvictMirror(ok) => !ok && s.task.EvictHolding? && s.task.name == n
    case StepUnlinkBlob(m, ok) => !ok && m == n
    case _ => false
  }

  ghost predicate Abandons(step: Step, n: string) {
    step == StepAbandon(n) || (step.StepLateRename? && step.n == n)
  }

  ghost predicate Disturbs(c: Config, step: Step, n: string) {
    step == StepStatFails(n) || (c.blob(n) && (step == StepHandDelete(n) || (step.StepLateRename? && step.n == n)))
  }

  ghost predicate Litters(s: State, step: Step, d: Debris) {
    match step
    case StepRelease(n) => d in s.residue && d in OwnDebris(s, n)
    case StepAbandon(n) => d in s.residue && d in OwnDebris(s, n)
    case StepWake(n) => d in s.residue && d in OwnDebris(s, n)
    case StepTrashRemoved(left) => left > 0 && s.task.EvictRemoving? && d == Trash(s.task.name)
    case StepRestart(order) => d in s.residue
    case _ => false
  }

  /** From `s` to `s'` each field has gained what `step` adds to it, and nothing else. */
  ghost predicate GainsExactly(c: Config, s: State, s': State, step: Step, n: string, d: Debris) {
    NamesGained(c, s, s', step, n) && (d !in s.littered ==> (d in s'.littered <==> Litters(s, step, d)))
  }

  ghost predicate NamesGained(c: Config, s: State, s': State, step: Step, n: string) {
    && (n !in s.faulted ==> (n in s'.faulted <==> Faults(s, step, n)))
    && (n !in s.failed ==> (n in s'.failed <==> Fails(s, step, n)))
    && (n !in s.abandoned ==> (n in s'.abandoned <==> Abandons(step, n)))
    && (n !in s.disturbed ==> (n in s'.disturbed <==> Disturbs(c, step, n)))
  }

  lemma ReportGains(c: Config, s: State, step: Step, n: string)
    requires Listed(s.idx) && ReportStep(step) && PullEnabled(c, s, step)
    ensures NamesGained(c, s, PullNext(c, s, step), step, n)
  {
  }

  lemma QuietPullGains(c: Config, s: State, step: Step, n: string)
    requires Listed(s.idx) && PullStep(step) && !ReportStep(step) && PullEnabled(c, s, step)
    ensures NamesGained(c, s, PullNext(c, s, step), step, n)
  {
  }

  lemma PullGains(c: Config, s: State, step: Step, n: string)
    requires Listed(s.idx) && PullStep(step) && PullEnabled(c, s, step)
    ensures NamesGained(c, s, PullNext(c, s, step), step, n)
  {
    if ReportStep(step) {
      ReportGains(c, s, step, n);
    } else {
      QuietPullGains(c, s, step, n);
    }
  }

  lemma StoreGains(c: Config, s: State, step: Step, n: string)
    requires Listed(s.idx) && StoreStep(step) && StoreEnabled(c, s, step)
    ensures NamesGained(c, s, StoreNext(c, s, step), step, n)
  {
  }

  lemma MeasureGains(c: Config, s: State, step: Step, n: string)
    requires Listed(s.idx) && MeasureStep(step) && MeasureEnabled(c, s, step)
    ensures NamesGained(c, s, MeasureNext(c, s, step), step, n)
  {
  }

  lemma EvictGains(c: Config, s: State, step: Step, n: string)
    requires Listed(s.idx) && EvictStep(step) && EvictEnabled(c, s, step)
    ensures NamesGained(c, s, EvictNext(c, s, step), step, n)
  {
  }

  lemma ReconcileGains(c: Config, s: State, step: Step, n: string)
    requires Listed(s.idx) && ReconcileStep(step) && ReconcileEnabled(c, s, step)
    ensures NamesGained(c, s, ReconcileNext(c, s, step), step, n)
  {
  }

  lemma EnvironmentGains(c: Config, s: State, step: Step, n: string)
    requires Listed(s.idx) && EnvironmentStep(step) && EnvironmentEnabled(c, s, step)
    ensures NamesGained(c, s, EnvironmentNext(c, s, step), step, n)
  {
  }

  lemma ReportLitters(c: Config, s: State, step: Step, d: Debris)
    requires Listed(s.idx) && ReportStep(step) && PullEnabled(c, s, step) && d !in s.littered
    ensures d in PullNext(c, s, step).littered <==> Litters(s, step, d)
  {
  }

  lemma QuietPullLitters(c: Config, s: State, step: Step, d: Debris)
    requires Listed(s.idx) && PullStep(step) && !ReportStep(step) && PullEnabled(c, s, step) && d !in s.littered
    ensures d in PullNext(c, s, step).littered <==> Litters(s, step, d)
  {
  }

  lemma PullLitters(c: Config, s: State, step: Step, d: Debris)
    requires Listed(s.idx) && PullStep(step) && PullEnabled(c, s, step) && d !in s.littered
    ensures d in PullNext(c, s, step).littered <==> Litters(s, step, d)
  {
    if ReportStep(step) {
      ReportLitters(c, s, step, d);
    } else {
      QuietPullLitters(c, s, step, d);
    }
  }

  lemma StoreLitters(c: Config, s: State, step: Step, d: Debris)
    requires Listed(s.idx) && StoreStep(step) && StoreEnabled(c, s, step) && d !in s.littered
    ensures d in StoreNext(c, s, step).littered <==> Litters(s, step, d)
  {
  }

  lemma MeasureLitters(c: Config, s: State, step: Step, d: Debris)
    requires Listed(s.idx) && MeasureStep(step) && MeasureEnabled(c, s, step) && d !in s.littered
    ensures d in MeasureNext(c, s, step).littered <==> Litters(s, step, d)
  {
  }

  lemma EvictLitters(c: Config, s: State, step: Step, d: Debris)
    requires Listed(s.idx) && EvictStep(step) && EvictEnabled(c, s, step) && d !in s.littered
    ensures d in EvictNext(c, s, step).littered <==> Litters(s, step, d)
  {
  }

  lemma ReconcileLitters(c: Config, s: State, step: Step, d: Debris)
    requires Listed(s.idx) && ReconcileStep(step) && ReconcileEnabled(c, s, step) && d !in s.littered
    ensures d in ReconcileNext(c, s, step).littered <==> Litters(s, step, d)
  {
  }

  lemma EnvironmentLitters(c: Config, s: State, step: Step, d: Debris)
    requires Listed(s.idx) && EnvironmentStep(step) && EnvironmentEnabled(c, s, step) && d !in s.littered
    ensures d in EnvironmentNext(c, s, step).littered <==> Litters(s, step, d)
  {
  }

  /** Nothing is written off but for the reasons given. */
  lemma HistoryGainsExactly(c: Config, s: State, step: Step, n: string, d: Debris)
    requires Listed(s.idx) && Enabled(c, s, step)
    ensures GainsExactly(c, s, Next(c, s, step), step, n, d)
  {
    NamesGainExactly(c, s, step, n);
    if d !in s.littered { LittersExactly(c, s, step, d); }
  }

  lemma NamesGainExactly(c: Config, s: State, step: Step, n: string)
    requires Listed(s.idx) && Enabled(c, s, step)
    ensures NamesGained(c, s, Next(c, s, step), step, n)
  {
    if PullStep(step) {
      PullGains(c, s, step, n);
    } else if StoreStep(step) {
      StoreGains(c, s, step, n);
    } else if MeasureStep(step) {
      MeasureGains(c, s, step, n);
    } else if EvictStep(step) {
      EvictGains(c, s, step, n);
    } else if ReconcileStep(step) {
      ReconcileGains(c, s, step, n);
    } else {
      EnvironmentGains(c, s, step, n);
    }
  }

  lemma LittersExactly(c: Config, s: State, step: Step, d: Debris)
    requires Listed(s.idx) && Enabled(c, s, step) && d !in s.littered
    ensures d in Next(c, s, step).littered <==> Litters(s, step, d)
  {
    if PullStep(step) {
      PullLitters(c, s, step, d);
    } else if StoreStep(step) {
      StoreLitters(c, s, step, d);
    } else if MeasureStep(step) {
      MeasureLitters(c, s, step, d);
    } else if EvictStep(step) {
      EvictLitters(c, s, step, d);
    } else if ReconcileStep(step) {
      ReconcileLitters(c, s, step, d);
    } else {
      EnvironmentLitters(c, s, step, d);
    }
  }

  // ---------------------------------------------------------------------------------
  // What the steps of a run say
  // ---------------------------------------------------------------------------------

  /** The bytes last written under `n`, by the steps alone. */
  ghost function LastWritten(disk: map<string, u64>, steps: seq<Step>, n: string): Option<u64> {
    if steps == [] then (if n in disk then Some(disk[n]) else None)
    else
      var k := |steps| - 1;
      var rest := LastWritten(disk, steps[..k], n);
      match steps[k]
      case StepCloneRename(m, size) => if m == n then Some(size) else rest
      case StepWrite(m, size) => if m == n then Some(size) else rest
      case StepStoreRename(m, size, measured) => if m == n then Some(size) else rest
      case StepLateRename(m, size) => if m == n then Some(size) else rest
      case StepGc(m, size) => if m == n then Some(size) else rest
      case _ => rest
  }

  /** Has `n` been written since it was last reported to the index? */
  ghost predicate Changed(steps: seq<Step>, n: string) {
    steps != [] &&
    var k := |steps| - 1;
    match steps[k]
    case StepCloneRename(m, size) => m == n || Changed(steps[..k], n)
    case StepWrite(m, size) => m == n || Changed(steps[..k], n)
    case StepStoreRename(m, size, measured) => m == n || Changed(steps[..k], n)
    case StepMark(m) => m != n && Changed(steps[..k], n)
    case StepRecord(m) => m != n && Changed(steps[..k], n)
    case _ => Changed(steps[..k], n)
  }

  /** What is in the staging directory of `n`. */
  ghost function Staged(steps: seq<Step>, n: string): Option<u64> {
    if steps == [] then None
    else
      var k := |steps| - 1;
      var rest := Staged(steps[..k], n);
      match steps[k]
      case StepStage(m, size) => if m == n then Some(size) else rest
      case StepUnstage(m) => if m == n then None else rest
      case StepCloneRename(m, size) => if m == n then None else rest
      case _ => rest
  }

  /** What is in the temporary file of the request for `n`. */
  ghost function Loaded(steps: seq<Step>, n: string): Option<u64> {
    if steps == [] then None
    else
      var k := |steps| - 1;
      var rest := Loaded(steps[..k], n);
      match steps[k]
      case StepDownload(m, id, size) => if m == n then Some(size) else rest
      case StepChunk(m, size) => if m == n then Some(size) else rest
      case StepDiscard(m) => if m == n then None else rest
      case StepStoreRename(m, size, measured) => if m == n then None else rest
      case _ => rest
  }

  /** Nothing goes wrong in this step, given those before it: what is measured is measured whole and
      what is stored has its length read, removals succeed, requests end with everything reported and
      cleared away, and nobody meddles with objects. */
  ghost predicate Tidy(c: Config, before: seq<Step>, step: Step) {
    match step
    case StepMeasureLost => false
    case StepMeasure(n, size, whole) => whole
    case StepStoreRename(n, size, measured) => measured
    case StepEvictMirror(ok) => ok
    case StepUnlinkBlob(n, ok) => ok
    case StepTrashRemoved(left) => left == 0
    case StepRelease(n) => !Changed(before, n) && Staged(before, n) == None && Loaded(before, n) == None
    case StepWake(n) => Staged(before, n) == None
    case StepHandDelete(n) => !c.blob(n)
    case StepAbandon(n) => false
    case StepStatFails(n) => false
    case StepLateRename(n, size) => false
    case StepGc(n, size) => false
    case StepRestart(order) => false
    case _ => true
  }

  ghost predicate AllTidy(c: Config, steps: seq<Step>) {
    forall i :: 0 <= i < |steps| ==> Tidy(c, steps[..i], steps[i])
  }

  // ---------------------------------------------------------------------------------
  // Runs in which nothing goes wrong
  // ---------------------------------------------------------------------------------

  ghost predicate NothingOnRecord(s: State) {
    s.faulted == {} && s.failed == {} && s.abandoned == {} && s.disturbed == {} && s.littered == {}
  }

  /** Two downloads never share a temporary file. */
  ghost predicate TempsApart(s: State) {
    forall n, m :: n in s.reqs && m in s.reqs && s.reqs[n].Downloading? && s.reqs[n] == s.reqs[m] ==> n == m
  }

  /** Steps that write nothing and report nothing change nothing of what the steps say. */
  lemma ForgottenAlike(disk: map<string, u64>, steps: seq<Step>, step: Step, n: string)
    requires step.StepHandDelete? || step.StepSweep?
    ensures Changed(steps + [step], n) == Changed(steps, n)
    ensures LastWritten(disk, steps + [step], n) == LastWritten(disk, steps, n)
  {
    assert (steps + [step])[..|steps|] == steps;
  }

  /** The state bears out what the steps say of `n`. */
  ghost predicate Borne(disk: map<string, u64>, s: State, steps: seq<Step>, n: string) {
    DiskBorne(disk, s, steps, n) && FilesBorne(s, steps, n)
  }

  ghost predicate FilesBorne(s: State, steps: seq<Step>, n: string) {
    && Staged(steps, n) == (if Staging(n) in s.residue then Some(s.residue[Staging(n)]) else None)
    && (n in s.reqs && s.reqs[n].Downloading? ==>
          Temp(s.reqs[n].id) in s.residue && Loaded(steps, n) == Some(s.residue[Temp(s.reqs[n].id)]))
  }

  ghost predicate DiskBorne(disk: map<string, u64>, s: State, steps: seq<Step>, n: string) {
    && (n in s.unflagged <==> Changed(steps, n))
    && (n in s.reqs && s.reqs[n].MustRecord? && n in s.disk ==> s.disk[n] == s.reqs[n].size)
    && (n in s.disk ==> LastWritten(disk, steps, n) == Some(s.disk[n]))
  }

  lemma PullBearsDisk(c: Config, disk: map<string, u64>, s: State, steps: seq<Step>, step: Step, n: string)
    requires Listed(s.idx) && PullStep(step) && PullEnabled(c, s, step) && Tidy(c, steps, step)
    requires DiskBorne(disk, s, steps, n)
    ensures DiskBorne(disk, PullNext(c, s, step), steps + [step], n)
  {
    assert (steps + [step])[..|steps|] == steps;
  }

  lemma PullBearsFiles(c: Config, s: State, steps: seq<Step>, step: Step, n: string)
    requires Listed(s.idx) && PullStep(step) && PullEnabled(c, s, step) && Tidy(c, steps, step)
    requires FilesBorne(s, steps, n) && TempsApart(s) && s.littered == {}
    requires step.StepDiscard? || step.StepChunk? || step.StepStoreRename? ==> FilesBorne(s, steps, step.n)
    ensures FilesBorne(PullNext(c, s, step), steps + [step], n)
  {
    assert (steps + [step])[..|steps|] == steps;
  }

  lemma ObjectBearsDisk(c: Config, disk: map<string, u64>, s: State, steps: seq<Step>, step: Step, n: string)
    requires Listed(s.idx) && StoreStep(step) && StoreEnabled(c, s, step) && Tidy(c, steps, step)
    requires DiskBorne(disk, s, steps, n) && (step.StepStoreRename? || step.StepRecord?)
    ensures DiskBorne(disk, StoreNext(c, s, step), steps + [step], n)
  {
    assert (steps + [step])[..|steps|] == steps;
  }

  lemma DownloadBearsDisk(c: Config, disk: map<string, u64>, s: State, steps: seq<Step>, step: Step, n: string)
    requires Listed(s.idx) && StoreStep(step) && StoreEnabled(c, s, step) && Tidy(c, steps, step)
    requires DiskBorne(disk, s, steps, n) && !step.StepStoreRename? && !step.StepRecord?
    ensures DiskBorne(disk, StoreNext(c, s, step), steps + [step], n)
  {
    assert (steps + [step])[..|steps|] == steps;
  }

  lemma StoreBearsDisk(c: Config, disk: map<string, u64>, s: State, steps: seq<Step>, step: Step, n: string)
    requires Listed(s.idx) && StoreStep(step) && StoreEnabled(c, s, step) && Tidy(c, steps, step)
    requires DiskBorne(disk, s, steps, n)
    ensures DiskBorne(disk, StoreNext(c, s, step), steps + [step], n)
  {
    if step.StepStoreRename? || step.StepRecord? {
      ObjectBearsDisk(c, disk, s, steps, step, n);
    } else {
      DownloadBearsDisk(c, disk, s, steps, step, n);
    }
  }

  lemma StoreBearsFiles(c: Config, s: State, steps: seq<Step>, step: Step, n: string)
    requires Listed(s.idx) && StoreStep(step) && StoreEnabled(c, s, step) && Tidy(c, steps, step)
    requires FilesBorne(s, steps, n) && TempsApart(s) && s.littered == {}
    requires step.StepDiscard? || step.StepChunk? || step.StepStoreRename? ==> FilesBorne(s, steps, step.n)
    ensures FilesBorne(StoreNext(c, s, step), steps + [step], n)
  {
    assert (steps + [step])[..|steps|] == steps;
  }

  lemma MeasureBearsDisk(c: Config, disk: map<string, u64>, s: State, steps: seq<Step>, step: Step, n: string)
    requires Listed(s.idx) && MeasureStep(step) && MeasureEnabled(c, s, step) && Tidy(c, steps, step)
    requires DiskBorne(disk, s, steps, n)
    ensures DiskBorne(disk, MeasureNext(c, s, step), steps + [step], n)
  {
    assert (steps + [step])[..|steps|] == steps;
  }

  lemma MeasureBearsFiles(c: Config, s: State, steps: seq<Step>, step: Step, n: string)
    requires Listed(s.idx) && MeasureStep(step) && MeasureEnabled(c, s, step) && Tidy(c, steps, step)
    requires FilesBorne(s, steps, n) && TempsApart(s) && s.littered == {}
    requires step.StepDiscard? || step.StepChunk? || step.StepStoreRename? ==> FilesBorne(s, steps, step.n)
    ensures FilesBorne(MeasureNext(c, s, step), steps + [step], n)
  {
    assert (steps + [step])[..|steps|] == steps;
  }

  lemma EvictBearsDisk(c: Config, disk: map<string, u64>, s: State, steps: seq<Step>, step: Step, n: string)
    requires Listed(s.idx) && EvictStep(step) && EvictEnabled(c, s, step) && Tidy(c, steps, step)
    requires DiskBorne(disk, s, steps, n)
    ensures DiskBorne(disk, EvictNext(c, s, step), steps + [step], n)
  {
    assert (steps + [step])[..|steps|] == steps;
  }

  lemma EvictBearsFiles(c: Config, s: State, steps: seq<Step>, step: Step, n: string)
    requires Listed(s.idx) && EvictStep(step) && EvictEnabled(c, s, step) && Tidy(c, steps, step)
    requires FilesBorne(s, steps, n) && TempsApart(s) && s.littered == {}
    requires step.StepDiscard? || step.StepChunk? || step.StepStoreRename? ==> FilesBorne(s, steps, step.n)
    ensures FilesBorne(EvictNext(c, s, step), steps + [step], n)
  {
    assert (steps + [step])[..|steps|] == steps;
  }

  lemma ReconcileBearsDisk(c: Config, disk: map<string, u64>, s: State, steps: seq<Step>, step: Step, n: string)
    requires Listed(s.idx) && ReconcileStep(step) && ReconcileEnabled(c, s, step) && Tidy(c, steps, step)
    requires DiskBorne(disk, s, steps, n)
    ensures DiskBorne(disk, ReconcileNext(c, s, step), steps + [step], n)
  {
    assert (steps + [step])[..|steps|] == steps;
  }

  lemma ReconcileBearsFiles(c: Config, s: State, steps: seq<Step>, step: Step, n: string)
    requires Listed(s.idx) && ReconcileStep(step) && ReconcileEnabled(c, s, step) && Tidy(c, steps, step)
    requires FilesBorne(s, steps, n) && TempsApart(s) && s.littered == {}
    requires step.StepDiscard? || step.StepChunk? || step.StepStoreRename? ==> FilesBorne(s, steps, step.n)
    ensures FilesBorne(ReconcileNext(c, s, step), steps + [step], n)
  {
    assert (steps + [step])[..|steps|] == steps;
  }

  lemma EnvironmentBearsDisk(c: Config, disk: map<string, u64>, s: State, steps: seq<Step>, step: Step, n: string)
    requires Listed(s.idx) && EnvironmentStep(step) && EnvironmentEnabled(c, s, step) && Tidy(c, steps, step)
    requires DiskBorne(disk, s, steps, n)
    ensures DiskBorne(disk, EnvironmentNext(c, s, step), steps + [step], n)
  {
    assert (steps + [step])[..|steps|] == steps;
    ForgottenAlike(disk, steps, step, n);
  }

  lemma EnvironmentBearsFiles(c: Config, s: State, steps: seq<Step>, step: Step, n: string)
    requires Listed(s.idx) && EnvironmentStep(step) && EnvironmentEnabled(c, s, step) && Tidy(c, steps, step)
    requires FilesBorne(s, steps, n) && TempsApart(s) && s.littered == {}
    requires step.StepDiscard? || step.StepChunk? || step.StepStoreRename? ==> FilesBorne(s, steps, step.n)
    ensures FilesBorne(EnvironmentNext(c, s, step), steps + [step], n)
  {
    assert (steps + [step])[..|steps|] == steps;
  }

  lemma TempsStayApart(c: Config, disk: map<string, u64>, s: State, steps: seq<Step>, step: Step)
    requires Listed(s.idx) && Enabled(c, s, step) && TempsApart(s) && forall n :: Borne(disk, s, steps, n)
    ensures TempsApart(Next(c, s, step))
  {
    var s' := Next(c, s, step);
    forall n, m | n in s'.reqs && m in s'.reqs && s'.reqs[n].Downloading? && s'.reqs[n] == s'.reqs[m] ensures n == m {
      DownloadsKept(c, s, step, n);
      DownloadsKept(c, s, step, m);
      assert Borne(disk, s, steps, n) && Borne(disk, s, steps, m);
    }
  }

  ghost predicate DownloadKept(s: State, s': State, step: Step, n: string) {
    n in s'.reqs && s'.reqs[n].Downloading? ==>
      if step.StepDownload? && step.n == n then s'.reqs[n].id == step.id && Temp(step.id) !in s.residue
      else n in s.reqs && s.reqs[n] == s'.reqs[n]
  }

  lemma ReportKeepsDownload(c: Config, s: State, step: Step, n: string)
    requires Listed(s.idx) && ReportStep(step) && PullEnabled(c, s, step)
    ensures DownloadKept(s, PullNext(c, s, step), step, n)
  {
  }

  lemma PullKeepsDownload(c: Config, s: State, step: Step, n: string)
    requires Listed(s.idx) && PullStep(step) && PullEnabled(c, s, step)
    ensures DownloadKept(s, PullNext(c, s, step), step, n)
  {
    if ReportStep(step) { ReportKeepsDownload(c, s, step, n); }
  }

  lemma StoreKeepsDownload(c: Config, s: State, step: Step, n: string)
    requires Listed(s.idx) && StoreStep(step) && StoreEnabled(c, s, step)
    ensures DownloadKept(s, StoreNext(c, s, step), step, n)
  {
  }

  lemma DownloadsKept(c: Config, s: State, step: Step, n: string)
    requires Listed(s.idx) && Enabled(c, s, step)
    ensures DownloadKept(s, Next(c, s, step), step, n)
  {
    if PullStep(step) {
      PullKeepsDownload(c, s, step, n);
    } else if StoreStep(step) {
      StoreKeepsDownload(c, s, step, n);
    }
  }

  lemma StepBears(c: Config, disk: map<string, u64>, s: State, steps: seq<Step>, step: Step, n: string)
    requires Listed(s.idx) && Enabled(c, s, step) && Tidy(c, steps, step) && TempsApart(s) && s.littered == {}
    requires forall m :: Borne(disk, s, steps, m)
    ensures Borne(disk, Next(c, s, step), steps + [step], n)
  {
    assert Borne(disk, s, steps, n);
    StepBearsDisk(c, disk, s, steps, step, n);
    if step.StepDiscard? || step.StepChunk? || step.StepStoreRename? { assert Borne(disk, s, steps, step.n); }
    StepBearsFiles(c, s, steps, step, n);
  }

  lemma StepBearsDisk(c: Config, disk: map<string, u64>, s: State, steps: seq<Step>, step: Step, n: string)
    requires Listed(s.idx) && Enabled(c, s, step) && Tidy(c, steps, step) && DiskBorne(disk, s, steps, n)
    ensures DiskBorne(disk, Next(c, s, step), steps + [step], n)
  {
    if PullStep(step) {
      PullBearsDisk(c, disk, s, steps, step, n);
    } else if StoreStep(step) {
      StoreBearsDisk(c, disk, s, steps, step, n);
    } else if MeasureStep(step) {
      MeasureBearsDisk(c, disk, s, steps, step, n);
    } else if EvictStep(step) {
      EvictBearsDisk(c, disk, s, steps, step, n);
    } else if ReconcileStep(step) {
      ReconcileBearsDisk(c, disk, s, steps, step, n);
    } else {
      EnvironmentBearsDisk(c, disk, s, steps, step, n);
    }
  }

  lemma StepBearsFiles(c: Config, s: State, steps: seq<Step>, step: Step, n: string)
    requires Listed(s.idx) && Enabled(c, s, step) && Tidy(c, steps, step)
    requires FilesBorne(s, steps, n) && TempsApart(s) && s.littered == {}
    requires step.StepDiscard? || step.StepChunk? || step.StepStoreRename? ==> FilesBorne(s, steps, step.n)
    ensures FilesBorne(Next(c, s, step), steps + [step], n)
  {
    if PullStep(step) {
      PullBearsFiles(c, s, steps, step, n);
    } else if StoreStep(step) {
      StoreBearsFiles(c, s, steps, step, n);
    } else if MeasureStep(step) {
      MeasureBearsFiles(c, s, steps, step, n);
    } else if EvictStep(step) {
      EvictBearsFiles(c, s, steps, step, n);
    } else if ReconcileStep(step) {
      ReconcileBearsFiles(c, s, steps, step, n);
    } else {
      EnvironmentBearsFiles(c, s, steps, step, n);
    }
  }

  lemma TidyFaultsNothing(c: Config, disk: map<string, u64>, s: State, steps: seq<Step>, step: Step, n: string)
    requires Tidy(c, steps, step) && Borne(disk, s, steps, n)
    ensures !Faults(s, step, n) && !Fails(s, step, n) && !Abandons(step, n) && !Disturbs(c, step, n)
  {
  }

  lemma TidyLittersNothing(c: Config, disk: map<string, u64>, s: State, steps: seq<Step>, step: Step, d: Debris)
    requires Enabled(c, s, step) && Tidy(c, steps, step) && forall n :: Borne(disk, s, steps, n)
    ensures !Litters(s, step, d)
  {
    if step.StepRelease? {
      assert Borne(disk, s, steps, step.n);
    } else if step.StepWake? {
      assert Borne(disk, s, steps, step.n);
      assert Holds(s, step.n, MustWake);
    }
  }

  /** A tidy step adds nothing to the record. */
  lemma TidyAddsNothing(c: Config, disk: map<string, u64>, s: State, steps: seq<Step>, step: Step, n: string, d: Debris)
    requires Listed(s.idx) && Enabled(c, s, step) && Tidy(c, steps, step) && NothingOnRecord(s)
    requires forall m :: Borne(disk, s, steps, m)
    ensures var s' := Next(c, s, step);
            n !in s'.faulted && n !in s'.failed && n !in s'.abandoned && n !in s'.disturbed && d !in s'.littered
  {
    HistoryGainsExactly(c, s, step, n, d);
    assert Borne(disk, s, steps, n);
    TidyFaultsNothing(c, disk, s, steps, step, n);
    TidyLittersNothing(c, disk, s, steps, step, d);
  }

  lemma TidyKeepsRecord(c: Config, disk: map<string, u64>, s: State, steps: seq<Step>, step: Step)
    requires Listed(s.idx) && Enabled(c, s, step) && Tidy(c, steps, step) && NothingOnRecord(s)
    requires forall n :: Borne(disk, s, steps, n)
    ensures NothingOnRecord(Next(c, s, step))
  {
    var s' := Next(c, s, step);
    forall n ensures n !in s'.faulted && n !in s'.failed && n !in s'.abandoned && n !in s'.disturbed {
      TidyAddsNothing(c, disk, s, steps, step, n, Staging(n));
    }
    forall d ensures d !in s'.littered { TidyAddsNothing(c, disk, s, steps, step, "", d); }
  }

  lemma {:induction false} Snoc(c: Config, s: State, steps: seq<Step>, step: Step)
    ensures var r := After(c, s, steps);
            After(c, s, steps + [step]) ==
              if r.Reached? && Listed(r.state.idx) && Enabled(c, r.state, step) then Reached(Next(c, r.state, step))
              else Blocked
    decreases |steps|
  {
    var longer := steps + [step];
    if steps == [] {
      assert longer[1..] == [];
    } else {
      assert longer[1..] == steps[1..] + [step];
      if Listed(s.idx) && Enabled(c, s, steps[0]) { Snoc(c, Next(c, s, steps[0]), steps[1..], step); }
    }
  }

  lemma {:induction false} TidyRun(c: Config, disk: map<string, u64>, order: seq<string>, steps: seq<Step>)
    requires IsStartup(disk, order) && Run(c, disk, map[], order, steps).Reached? && AllTidy(c, steps)
    ensures var s := Run(c, disk, map[], order, steps).state;
            NothingOnRecord(s) && TempsApart(s) && forall n :: Borne(disk, s, steps, n)
    decreases |steps|
  {
    if steps != [] {
      var k := |steps| - 1;
      var before, step := steps[..k], steps[k];
      assert steps == before + [step];
      Snoc(c, Startup(c, disk, map[], order), before, step);
      forall i | 0 <= i < k ensures Tidy(c, before[..i], before[i]) {
        assert before[..i] == steps[..i] && Tidy(c, steps[..i], steps[i]);
      }
      TidyRun(c, disk, order, before);
      var s := Run(c, disk, map[], order, before).state;
      TidyKeepsRecord(c, disk, s, before, step);
      TempsStayApart(c, disk, s, before, step);
      forall n ensures Borne(disk, Next(c, s, step), steps, n) { StepBears(c, disk, s, before, step, n); }
    }
  }

  /** In every run in which nothing goes wrong - a condition on its steps alone - the index is right
      without exception: a tracked name on disk that is not waiting to be measured and not in use is
      tracked at the size last written under it; everything on disk is tracked, about to be reported,
      or on its way out; staging directories and temporary files hold what was written to them; and at
      rest the whole cache directory is within the cap. */
  lemma TidyRunsAreExact(c: Config, disk: map<string, u64>, order: seq<string>, steps: seq<Step>, n: string)
    requires IsStartup(disk, order) && Run(c, disk, map[], order, steps).Reached? && AllTidy(c, steps)
    ensures var s := Run(c, disk, map[], order, steps).state;
            && (n in s.disk && n in s.idx.sizes && n !in s.idx.dirty && n !in Batch(s.task) && n !in s.reqs ==>
                  LastWritten(disk, steps, n) == Some(s.idx.sizes[n]))
            && (n in s.disk ==> n in s.idx.sizes || AboutToReport(s, n) || n in Queue(s.task))
            && Staged(steps, n) == (if Staging(n) in s.residue then Some(s.residue[Staging(n)]) else None)
            && (n in s.reqs && s.reqs[n].Downloading? ==>
                  Temp(s.reqs[n].id) in s.residue && Loaded(steps, n) == Some(s.residue[Temp(s.reqs[n].id)]))
            && s.idx.Valid()
            && (AtRest(s) && Index.Sum(s.idx.order, s.idx.sizes) < U64_MOD ==> AllBytes(s) <= c.cap)
  {
    TidyRun(c, disk, order, steps);
    SizesAgreeWithDisk(c, disk, map[], order, steps, n);
    NothingEscapes(c, disk, map[], order, steps, n);
    QuiescentDiskWithinCap(c, disk, map[], order, steps);
    assert Borne(disk, Run(c, disk, map[], order, steps).state, steps, n);
  }

  // ---------------------------------------------------------------------------------
  // The access order, over interleavings
  // ---------------------------------------------------------------------------------

  /** The critical section of the index that a step consists of, if any. */
  ghost function OpFor(s: State, step: Step): Index.Op {
    match step
    case StepTouch(n) => Index.OpTouch(n)
    case StepMark(n) => Index.OpMarkChanged(n)
    case StepRecord(n) =>
      Index.OpRecordBlob(n, if n in s.reqs && s.reqs[n].MustRecord? then s.reqs[n].size else 0)
    case StepTakeDirty => Index.OpTakeDirty
    case StepSetSize(n) => Index.OpSetSize(n, if s.task.Setting? && n in s.task.done then s.task.done[n] else 0)
    case StepTakeVictims => Index.OpTakeVictims
    case StepDrop => Index.OpDropMissing(if s.task.BeforeDrop? then s.task.missing else [])
    case _ => Index.OpDropMissing([])
  }

  /** The steps that are a critical section of the index. */
  predicate ActsOnIndex(step: Step) {
    || step.StepTouch? || step.StepMark? || step.StepRecord? || step.StepTakeDirty? || step.StepSetSize?
    || step.StepTakeVictims? || step.StepDrop? || step.StepRestart?
  }

  lemma RequestFollows(c: Config, s: State, step: Step)
    requires Listed(s.idx) && Enabled(c, s, step) && (step.StepTouch? || step.StepMark? || step.StepRecord?)
    ensures Next(c, s, step).idx == Index.Apply(s.idx, c.cap, OpFor(s, step))
  {
  }

  lemma MeasureFollows(c: Config, s: State, step: Step)
    requires Listed(s.idx) && Enabled(c, s, step) && (step.StepTakeDirty? || step.StepSetSize?)
    ensures Next(c, s, step).idx == Index.Apply(s.idx, c.cap, OpFor(s, step))
  {
  }

  lemma RemovalFollows(c: Config, s: State, step: Step)
    requires Listed(s.idx) && Enabled(c, s, step) && (step.StepTakeVictims? || step.StepDrop?)
    ensures Next(c, s, step).idx == Index.Apply(s.idx, c.cap, OpFor(s, step))
  {
  }

  lemma OthersQuiet(c: Config, s: State, step: Step)
    requires Listed(s.idx) && Enabled(c, s, step) && !ActsOnIndex(step)
    ensures Next(c, s, step).idx == s.idx
  {
  }

  lemma NothingDropped(idx: Index.Inner, cap: u64)
    requires Listed(idx)
    ensures Index.Apply(idx, cap, Index.OpDropMissing([])) == idx
  {
  }

  lemma IndexFollows(c: Config, s: State, step: Step)
    requires Listed(s.idx) && Enabled(c, s, step) && !step.StepRestart?
    ensures Next(c, s, step).idx == Index.Apply(s.idx, c.cap, OpFor(s, step))
  {
    if !ActsOnIndex(step) {
      OthersQuiet(c, s, step);
      NothingDropped(s.idx, c.cap);
    } else if step.StepTakeVictims? || step.StepDrop? {
      RemovalFollows(c, s, step);
    } else if step.StepTakeDirty? || step.StepSetSize? {
      MeasureFollows(c, s, step);
    } else {
      RequestFollows(c, s, step);
    }
  }

  /** A step that counts as a use of `n`: a request for it, a report of it; a measurement is not one. */
  predicate UsesStep(step: Step, n: string) { step == StepTouch(n) || step == StepMark(n) || step == StepRecord(n) }

  /** When `n` was last used, by the steps alone: 1 + the place of the last such step; for a name never
      used, minus its place in the order at the start. */
  ghost function LastUsed(initial: seq<string>, steps: seq<Step>, n: string): int {
    if steps == [] then Index.LastUse(initial, [], n)
    else if UsesStep(steps[|steps| - 1], n) then |steps|
    else LastUsed(initial, steps[..|steps| - 1], n)
  }

  /** One critical section for each step. */
  ghost predicate Mirrors(ops: seq<Index.Op>, steps: seq<Step>) {
    |ops| == |steps| && forall i, n :: 0 <= i < |ops| ==> (Index.Uses(ops[i], n) <==> UsesStep(steps[i], n))
  }

  lemma {:induction false} SameUses(initial: seq<string>, ops: seq<Index.Op>, steps: seq<Step>, n: string)
    requires Mirrors(ops, steps)
    ensures Index.LastUse(initial, ops, n) == LastUsed(initial, steps, n)
    decreases |ops|
  {
    if ops != [] {
      var k := |ops| - 1;
      SameUses(initial, ops[..k], steps[..k], n);
    } else {
      assert ops == [];
    }
  }

  lemma {:induction false} IndexRuns(c: Config, s: State, steps: seq<Step>) returns (ops: seq<Index.Op>)
    requires Inv(c, s) && After(c, s, steps).Reached?
    requires forall i :: 0 <= i < |steps| ==> !steps[i].StepRestart?
    ensures Mirrors(ops, steps) && After(c, s, steps).state.idx == Index.Run(s.idx, c.cap, ops)
    decreases |steps|
  {
    if steps == [] {
      ops := [];
    } else {
      var k := |steps| - 1;
      var before, step := steps[..k], steps[k];
      assert steps == before + [step];
      Snoc(c, s, before, step);
      var rest := IndexRuns(c, s, before);
      InvAlways(c, s, before);
      var r := After(c, s, before).state;
      IndexFollows(c, r, step);
      ops := rest + [OpFor(r, step)];
      assert ops[..k] == rest;
      OneMoreUse(r, rest, before, step);
    }
  }

  lemma OneMoreUse(s: State, ops: seq<Index.Op>, steps: seq<Step>, step: Step)
    requires Mirrors(ops, steps)
    ensures Mirrors(ops + [OpFor(s, step)], steps + [step])
  {
    var ops', steps' := ops + [OpFor(s, step)], steps + [step];
    forall i, n | 0 <= i < |ops'| ensures Index.Uses(ops'[i], n) <==> UsesStep(steps'[i], n) {
      if i < |ops| { assert ops'[i] == ops[i] && steps'[i] == steps[i]; }
    }
  }

  /** In every run until a restart, whatever the interleaving, the access order is the order of last
      use: so what is evicted is what was used least recently. */
  lemma LruInEveryRun(c: Config, s: State, steps: seq<Step>, i: int, j: int)
    requires Inv(c, s) && After(c, s, steps).Reached?
    requires forall k :: 0 <= k < |steps| ==> !steps[k].StepRestart?
    ensures var order := After(c, s, steps).state.idx.order;
            0 <= i < j < |order| ==>
              LastUsed(s.idx.order, steps, order[i]) > LastUsed(s.idx.order, steps, order[j])
  {
    var ops := IndexRuns(c, s, steps);
    Index.LruOrderIsLastUse(s.idx, c.cap, ops);
    var order := After(c, s, steps).state.idx.order;
    if 0 <= i < j < |order| {
      SameUses(s.idx.order, ops, steps, order[i]);
      SameUses(s.idx.order, ops, steps, order[j]);
    }
  }

  // ---------------------------------------------------------------------------------
  // What can happen at any time
  // ---------------------------------------------------------------------------------

  /** Nothing restrains the world: in any state, a request may come in or be dropped, files may be
      deleted, written or renamed into place late, a walk may be lost or fall short, a deletion may
      fail, a timer may fire, and the process may start anew. */
  lemma TheWorldIsFree(c: Config, s: State, n: string, size: u64)
    ensures n in s.disk ==> Enabled(c, s, StepHandDelete(n))
    ensures n in s.disk && !c.blob(n) ==> Enabled(c, s, StepGc(n, size))
    ensures n !in s.disk ==> Enabled(c, s, StepLateRename(n, size))
  {
  }

  lemma RestartsAreFree(c: Config, s: State, order: seq<string>, d: Debris)
    ensures d in s.littered ==> Enabled(c, s, StepSweep(d))
    ensures IsStartup(s.disk, order) ==> Enabled(c, s, StepRestart(order))
  {
  }

  lemma RequestsAreFree(c: Config, s: State, n: string, size: u64)
    ensures Enabled(c, s, StepTouch(n))
    ensures AboutToReport(s, n) ==> Enabled(c, s, StepAbandon(n))
    ensures Holds(s, n, Pulling) ==>
              && Enabled(c, s, StepRelease(n)) && Enabled(c, s, StepUpstreamOk(n))
              && Enabled(c, s, StepStage(n, size)) && Enabled(c, s, StepUnstage(n))
              && (if n in s.disk then Enabled(c, s, StepWrite(n, size)) else Enabled(c, s, StepCloneRename(n, size)))
    ensures FetchingObject(s, n) ==> Enabled(c, s, StepRelease(n))
  {
  }

  lemma DownloadsAreFree(c: Config, s: State, n: string, size: u64)
    ensures n in s.reqs && s.reqs[n].Downloading? ==> Enabled(c, s, StepDiscard(n)) && Enabled(c, s, StepChunk(n, size))
    ensures c.blob(n) && !Locked(s, n) ==> Enabled(c, s, StepStatFails(n))
  {
  }

  lemma WalksAreFree(c: Config, s: State, n: string, size: u64)
    ensures s.task.Measuring? ==>
              Enabled(c, s, StepMeasureLost) && (n in s.task.todo ==> Enabled(c, s, StepMeasure(n, size, false)))
  {
  }

  lemma WaitsAreFree(c: Config, s: State, n: string)
    ensures s.task.Stating? ==>
              Enabled(c, s, StepStatLost) && (n in s.task.todo ==> Enabled(c, s, StepStat(n, false)))
    ensures s.task.Waiting? ==> Enabled(c, s, StepTick) && Enabled(c, s, StepStop)
  {
  }

  lemma DeletionsAreFree(c: Config, s: State, n: string)
    ensures s.task.EvictHolding? ==> Enabled(c, s, StepEvictMirror(false)) && Enabled(c, s, StepEvictMirror(true))
    ensures s.task.EvictRemoving? && Trash(s.task.name) in s.residue ==>
              Enabled(c, s, StepTrashRemoved(s.residue[Trash(s.task.name)]))
    ensures s.task.Evicting? && n in s.task.queue && c.blob(n) ==> Enabled(c, s, StepUnlinkBlob(n, false))
  {
  }

  /** A lost sweep drops nothing, and the evictor goes on. */
  lemma LostSweepDropsNothing(c: Config, s: State)
    requires Listed(s.idx) && s.task.Stating?
    ensures Enabled(c, s, StepStatLost) && Next(c, s, StepStatLost) == s.(task := BeforeTakeDirty)
  {
  }

  /** What is cleared away is gone, and nothing else is. */
  lemma SweptAway(c: Config, s: State, d: Debris)
    requires Listed(s.idx) && d in s.littered
    ensures Enabled(c, s, StepSweep(d))
    ensures Next(c, s, StepSweep(d)) == s.(residue := s.residue - {d}, littered := s.littered - {d})
  {
  }

  predicate EvictorStep(step: Step) { MeasureStep(step) || EvictStep(step) || ReconcileStep(step) }

  lemma StopStops(c: Config, s: State)
    requires Listed(s.idx) && s.task.Waiting?
    ensures Enabled(c, s, StepStop) && Next(c, s, StepStop) == s.(task := Stopped)
  {
  }

  lemma OthersLeaveTask(c: Config, s: State, step: Step)
    requires Listed(s.idx) && Enabled(c, s, step) && !EvictorStep(step) && !step.StepRestart?
    ensures Next(c, s, step).task == s.task
  {
    if ReportStep(step) {
      ReportLeavesTask(c, s, step);
    } else if PullStep(step) {
      PullLeavesTask(c, s, step);
    } else if StoreStep(step) {
      StoreLeavesTask(c, s, step);
    } else {
      WorldLeavesTask(c, s, step);
    }
  }

  lemma ReportLeavesTask(c: Config, s: State, step: Step)
    requires Listed(s.idx) && ReportStep(step) && PullEnabled(c, s, step)
    ensures PullNext(c, s, step).task == s.task
  {
  }

  lemma PullLeavesTask(c: Config, s: State, step: Step)
    requires Listed(s.idx) && PullStep(step) && !ReportStep(step) && PullEnabled(c, s, step)
    ensures PullNext(c, s, step).task == s.task
  {
  }

  lemma StoreLeavesTask(c: Config, s: State, step: Step)
    requires Listed(s.idx) && StoreStep(step) && StoreEnabled(c, s, step)
    ensures StoreNext(c, s, step).task == s.task
  {
  }

  lemma WorldLeavesTask(c: Config, s: State, step: Step)
    requires Listed(s.idx) && EnvironmentStep(step) && EnvironmentEnabled(c, s, step) && !step.StepRestart?
    ensures EnvironmentNext(c, s, step).task == s.task
  {
  }

  lemma StoppedDoesNothing(c: Config, s: State, step: Step)
    requires s.task.Stopped?
    ensures MeasureStep(step) ==> !MeasureEnabled(c, s, step)
    ensures EvictStep(step) ==> !EvictEnabled(c, s, step)
    ensures ReconcileStep(step) ==> !ReconcileEnabled(c, s, step)
  {
  }

  /** An evictor that was told to stop does nothing more: until a restart, every run from there on is
      the requests' and the world's alone. */
  lemma {:induction false} StopsForGood(c: Config, s: State, steps: seq<Step>)
    requires s.task.Stopped? && After(c, s, steps).Reached?
    requires forall i :: 0 <= i < |steps| ==> !steps[i].StepRestart?
    ensures After(c, s, steps).state.task.Stopped?
    ensures forall i :: 0 <= i < |steps| ==> !EvictorStep(steps[i])
    decreases |steps|
  {
    if steps != [] {
      assert !steps[0].StepRestart?;
      if EvictorStep(steps[0]) { StoppedDoesNothing(c, s, steps[0]); }
      OthersLeaveTask(c, s, steps[0]);
      StopsForGood(c, Next(c, s, steps[0]), steps[1..]);
      forall i | 0 <= i < |steps| ensures !EvictorStep(steps[i]) {
        if i > 0 { assert steps[1..][i - 1] == steps[i]; }
      }
    }
  }

  // ---------------------------------------------------------------------------------
  // What leaves the disk
  // ---------------------------------------------------------------------------------

  ghost predicate Deletes(s: State, step: Step, n: string) {
    match step
    case StepEvictMirror(ok) => ok && s.task.EvictHolding? && s.task.name == n
    case StepUnlinkBlob(m, ok) => ok && m == n
    case StepHandDelete(m) => m == n
    case _ => false
  }

  lemma ReportDeletes(c: Config, s: State, step: Step, n: string)
    requires Listed(s.idx) && ReportStep(step) && PullEnabled(c, s, step) && n in s.disk
    ensures n !in PullNext(c, s, step).disk <==> Deletes(s, step, n)
  {
  }

  lemma QuietPullDeletes(c: Config, s: State, step: Step, n: string)
    requires Listed(s.idx) && PullStep(step) && !ReportStep(step) && PullEnabled(c, s, step) && n in s.disk
    ensures n !in PullNext(c, s, step).disk <==> Deletes(s, step, n)
  {
  }

  lemma PullDeletes(c: Config, s: State, step: Step, n: string)
    requires Listed(s.idx) && PullStep(step) && PullEnabled(c, s, step) && n in s.disk
    ensures n !in PullNext(c, s, step).disk <==> Deletes(s, step, n)
  {
    if ReportStep(step) {
      ReportDeletes(c, s, step, n);
    } else {
      QuietPullDeletes(c, s, step, n);
    }
  }

  lemma StoreDeletes(c: Config, s: State, step: Step, n: string)
    requires Listed(s.idx) && StoreStep(step) && StoreEnabled(c, s, step) && n in s.disk
    ensures n !in StoreNext(c, s, step).disk <==> Deletes(s, step, n)
  {
  }

  lemma MeasureDeletes(c: Config, s: State, step: Step, n: string)
    requires Listed(s.idx) && MeasureStep(step) && MeasureEnabled(c, s, step) && n in s.disk
    ensures n !in MeasureNext(c, s, step).disk <==> Deletes(s, step, n)
  {
  }

  lemma EvictDeletes(c: Config, s: State, step: Step, n: string)
    requires Listed(s.idx) && EvictStep(step) && EvictEnabled(c, s, step) && n in s.disk
    ensures n !in EvictNext(c, s, step).disk <==> Deletes(s, step, n)
  {
  }

  lemma ReconcileDeletes(c: Config, s: State, step: Step, n: string)
    requires Listed(s.idx) && ReconcileStep(step) && ReconcileEnabled(c, s, step) && n in s.disk
    ensures n !in ReconcileNext(c, s, step).disk <==> Deletes(s, step, n)
  {
  }

  lemma EnvironmentDeletes(c: Config, s: State, step: Step, n: string)
    requires Listed(s.idx) && EnvironmentStep(step) && EnvironmentEnabled(c, s, step) && n in s.disk
    ensures n !in EnvironmentNext(c, s, step).disk <==> Deletes(s, step, n)
  {
  }

  /** A mirror or object leaves the disk exactly by an eviction, an unlink or by hand. */
  lemma LeavesDiskExactly(c: Config, s: State, step: Step, n: string)
    requires Listed(s.idx) && Enabled(c, s, step) && n in s.disk
    ensures n !in Next(c, s, step).disk <==> Deletes(s, step, n)
  {
    if PullStep(step) {
      PullDeletes(c, s, step, n);
    } else if StoreStep(step) {
      StoreDeletes(c, s, step, n);
    } else if MeasureStep(step) {
      MeasureDeletes(c, s, step, n);
    } else if EvictStep(step) {
      EvictDeletes(c, s, step, n);
    } else if ReconcileStep(step) {
      ReconcileDeletes(c, s, step, n);
    } else {
      EnvironmentDeletes(c, s, step, n);
    }
  }
}
