/** The flat disk of `Mirror` against the tree of `Footprint`: when no two names in use are related,
    every step of the protocol does to the tree what it does to the maps, its guards say what the
    file system says, and the two stay in agreement throughout every run.

    A staging directory is taken to hold its HEAD from the start, and a removal to leave HEAD to the
    last: both make a directory count as a mirror as soon and as long as it possibly can. */
module Disk {
  import opened Common
  import opened Names
  import opened Footprint
  import M = Mirror

  // ---------------------------------------------------------------------------------
  // Agreement
  // ---------------------------------------------------------------------------------

  /** There is something in the directory `r`. */
  ghost predicate HasBelow(fs: Fs, r: string) { exists p :: p in fs && r + "/" <= p }

  /** How a repository's directories look: contents come with a HEAD and a directory to be in. */
  ghost predicate Kept(fs: Fs, n: string) {
    && (HasBelow(fs, n) ==> n in fs && n + "/HEAD" in fs)
    && (HasBelow(fs, StagingPath(n)) ==> StagingPath(n) in fs)
    && (StagingPath(n) in fs ==> StagingPath(n) + "/HEAD" in fs)
  }

  /** The maps say what is on disk: a mirror is where the HEAD test finds one, a staging directory
      where there is one, trash where something is left of it. */
  ghost predicate Shows(s: M.State, fs: Fs, n: string) {
    && (n in s.mirrors <==> n + "/HEAD" in fs)
    && (n in s.staging <==> StagingPath(n) in fs)
    && (n in s.trash <==> HasBelow(fs, TrashPath(n)))
  }

  ghost predicate Agrees(s: M.State, fs: Fs, n: string) { Kept(fs, n) && Shows(s, fs, n) }

  lemma HeadIsBelow(fs: Fs, r: string)
    requires r + "/HEAD" in fs
    ensures HasBelow(fs, r)
  {
    assert r + "/HEAD" == r + "/" + "HEAD";
  }

  /** The guards of the protocol are those of the file system: the HEAD test, and whether a rename
      into place or into the trash goes through. */
  lemma GuardsAgree(s: M.State, fs: Fs, n: string)
    requires Agrees(s, fs, n)
    ensures n in s.mirrors <==> n + "/HEAD" in fs
    ensures n in s.staging && n !in s.mirrors <==> CanRename(fs, StagingPath(n), n)
    ensures n in s.mirrors && n !in s.trash <==> CanRename(fs, n, TrashPath(n)) && n + "/HEAD" in fs
  {
    if n + "/HEAD" in fs { HeadIsBelow(fs, n); }
  }

  // ---------------------------------------------------------------------------------
  // What a step does to the tree
  // ---------------------------------------------------------------------------------

  predicate KeepsHead(root: string, removed: set<string>) { root !in removed && root + "/HEAD" !in removed }

  /** Work below a directory that leaves it and its HEAD where they are. */
  ghost predicate WorksBelow(root: string, ops: seq<Op>) {
    |ops| == 1 && ops[0].Write? && ops[0].root == root && KeepsHead(root, ops[0].removed)
  }

  /** A removal that gets somewhere, but not to its end. */
  ghost predicate RemovesSome(fs: Fs, root: string, ops: seq<Op>) {
    && |ops| == 1 && ops[0].Write? && ops[0].root == root && ops[0].written == map[]
    && (HasBelow(fs, root) ==> HasBelow(Apply(fs, ops[0]), root))
  }

  /** The name whose directories a step works on. */
  ghost function DiskName(s: M.State, step: M.Step): Option<string> {
    match step
    case DecideClone(t) => if t in s.threads then Some(s.threads[t].name) else None
    case CleanStaging(t) => if t in s.threads then Some(s.threads[t].name) else None
    case SpawnClone(t) => if t in s.threads then Some(s.threads[t].name) else None
    case CloneOk(t, read) => if t in s.threads then Some(s.threads[t].name) else None
    case CloneFail(t, leftover) => if t in s.threads then Some(s.threads[t].name) else None
    case RenameIntoPlace(t) => if t in s.threads then Some(s.threads[t].name) else None
    case FetchOk(t, read) => if t in s.threads then Some(s.threads[t].name) else None
    case FetchFail(t) => if t in s.threads then Some(s.threads[t].name) else None
    case EvictClearTrash(removed) => if s.evict.EvictHolding? then Some(s.evict.name) else None
    case EvictRename => if s.evict.EvictReady? then Some(s.evict.name) else None
    case EvictRemoveTrash(removed) => if s.evict.EvictRemoving? then Some(s.evict.name) else None
    case LandRename(n) => Some(n)
    case Bite(n, inode) => Some(n)
    case EndLate(left, removed) => Some(left.name)
    case HandDelete(n) => Some(n)
    case _ => None
  }

  /** The operations that carry out a step. What git writes and removes below its directory, and how
      far an unfinished removal gets, is open. */
  ghost predicate Realises(s: M.State, fs: Fs, step: M.Step, ops: seq<Op>) {
    var m := DiskName(s, step);
    if m.None? then ops == []
    else
      var n := m.value;
      match step
      case DecideClone(t) => ops == [MakeParents(n)]
      case CleanStaging(t) => ops == [RemoveTree(StagingPath(n))]
      case SpawnClone(t) =>
        && WorksBelow(StagingPath(n), ops)
        && StagingPath(n) in ops[0].written && StagingPath(n) + "/HEAD" in ops[0].written
      case CloneOk(t, read) => if n in s.staging then WorksBelow(StagingPath(n), ops) else ops == []
      case CloneFail(t, leftover) =>
        if !leftover then ops == [RemoveTree(StagingPath(n))]
        else if n in s.staging then WorksBelow(StagingPath(n), ops) else ops == []
      case RenameIntoPlace(t) => ops == [RenameTree(StagingPath(n), n)]
      case FetchOk(t, read) => if n in s.mirrors then WorksBelow(n, ops) else ops == []
      case FetchFail(t) => if n in s.mirrors then WorksBelow(n, ops) else ops == []
      case EvictClearTrash(removed) =>
        if removed then ops == [RemoveTree(TrashPath(n))] else RemovesSome(fs, TrashPath(n), ops)
      case EvictRename => ops == [RenameTree(n, TrashPath(n))]
      case EvictRemoveTrash(removed) =>
        if removed then ops == [RemoveTree(TrashPath(n))] else RemovesSome(fs, TrashPath(n), ops)
      case LandRename(_) => ops == [RenameTree(StagingPath(n), n)]
      case Bite(_, inode) => WorksBelow(if M.Has(s.staging, n, inode) then StagingPath(n) else n, ops)
      case EndLate(left, removed) => if removed then ops == [RemoveTree(StagingPath(n))] else ops == []
      case HandDelete(_) => ops == [RemoveTree(n)]
      case _ => ops == []
  }

  lemma OnlyForItsName(s: M.State, fs: Fs, step: M.Step, ops: seq<Op>)
    requires Realises(s, fs, step, ops)
    ensures |ops| <= 1 && (DiskName(s, step).None? ==> ops == [])
    ensures ops != [] ==> ForRepo(ops[0], DiskName(s, step).value)
  {
  }

  lemma ApplyOne(fs: Fs, ops: seq<Op>)
    requires |ops| <= 1
    ensures ApplyAll(fs, ops) == if ops == [] then fs else Apply(fs, ops[0])
  {
    if ops != [] { assert ApplyAll(fs, ops) == ApplyAll(Apply(fs, ops[0]), []); }
  }

  // ---------------------------------------------------------------------------------
  // Directories an operation leaves alone
  // ---------------------------------------------------------------------------------

  /** As far as agreement goes, the directory `r` is what it was. */
  ghost predicate SameRoot(fs: Fs, fs': Fs, r: string) {
    && (r in fs' <==> r in fs) && (r + "/HEAD" in fs' <==> r + "/HEAD" in fs)
    && (HasBelow(fs', r) <==> HasBelow(fs, r))
  }

  lemma UntouchedRoot(fs: Fs, op: Op, r: string)
    requires forall p :: InOrUnder(p, r) ==> !Touches(op, p)
    ensures SameRoot(fs, Apply(fs, op), r)
  {
    var fs' := Apply(fs, op);
    assert InOrUnder(r, r) && InOrUnder(r + "/HEAD", r) by { assert r + "/HEAD" == r + "/" + "HEAD"; }
    ChangesOnlyTouched(fs, op, r);
    ChangesOnlyTouched(fs, op, r + "/HEAD");
    if p :| p in fs && r + "/" <= p {
      ChangesOnlyTouched(fs, op, p);
      assert p in fs';
    }
    if p :| p in fs' && r + "/" <= p {
      ChangesOnlyTouched(fs, op, p);
      assert p in fs;
    }
  }

  ghost predicate SameRoots(fs: Fs, fs': Fs, n: string) {
    SameRoot(fs, fs', n) && SameRoot(fs, fs', StagingPath(n)) && SameRoot(fs, fs', TrashPath(n))
  }

  lemma UnrelatedRoots(fs: Fs, op: Op, m: string, n: string)
    requires Accepts(n) && Accepts(m) && !Related(n, m) && ForRepo(op, m)
    ensures SameRoots(fs, Apply(fs, op), n)
  {
    forall p | Owned(n, p) ensures !Touches(op, p) {
      if Touches(op, p) { TouchedAndOwned(m, n, op, p); }
    }
    UntouchedRoot(fs, op, n);
    UntouchedRoot(fs, op, StagingPath(n));
    UntouchedRoot(fs, op, TrashPath(n));
  }

  /** The three directories of one name are apart. */
  lemma RootsApart(n: string, a: string, b: string, p: string)
    requires IsSuffix(a) && IsSuffix(b) && InOrUnder(p, n + a) && InOrUnder(p, n + b)
    ensures a == b
  {
    Comparable(p, n + a, n + b);
    if InOrUnder(n + b, n + a) {
      RootInRoot(n, a, b);
    } else {
      RootInRoot(n, b, a);
    }
  }

  lemma RootInRoot(n: string, a: string, b: string)
    requires IsSuffix(a) && IsSuffix(b) && InOrUnder(n + b, n + a)
    ensures a == b
  {
    if n + b == n + a {
      assert (n + b)[|n|..] == b && (n + a)[|n|..] == a;
    } else {
      HoldsBeforeSuffix(n + a, n, b);
    }
  }

  /** Work in one of them leaves the others alone. */
  lemma OtherRoot(fs: Fs, op: Op, n: string, a: string, b: string)
    requires IsSuffix(a) && IsSuffix(b) && a != b
    requires forall p :: Touches(op, p) ==> InOrUnder(p, n + a)
    ensures SameRoot(fs, Apply(fs, op), n + b)
  {
    forall p | InOrUnder(p, n + b) ensures !Touches(op, p) {
      if Touches(op, p) { RootsApart(n, a, b, p); }
    }
    UntouchedRoot(fs, op, n + b);
  }

  /** A rename works in two of them. */
  lemma ThirdRoot(fs: Fs, op: Op, n: string, a: string, a': string, b: string)
    requires IsSuffix(a) && IsSuffix(a') && IsSuffix(b) && a != b && a' != b
    requires op == RenameTree(n + a, n + a')
    ensures SameRoot(fs, Apply(fs, op), n + b)
  {
    forall p | InOrUnder(p, n + b) ensures !Touches(op, p) {
      if InOrUnder(p, n + a) {
        RootsApart(n, a, b, p);
      } else if InOrUnder(p, n + a') {
        RootsApart(n, a', b, p);
      }
    }
    UntouchedRoot(fs, op, n + b);
  }

  // ---------------------------------------------------------------------------------
  // What an operation does to the directory it works in
  // ---------------------------------------------------------------------------------

  lemma Removed(fs: Fs, r: string)
    ensures var fs' := Apply(fs, RemoveTree(r)); r !in fs' && r + "/HEAD" !in fs' && !HasBelow(fs', r)
  {
    assert r + "/HEAD" == r + "/" + "HEAD";
  }

  lemma Worked(fs: Fs, op: Op, r: string)
    requires op.Write? && op.root == r && KeepsHead(r, op.removed)
    ensures var fs' := Apply(fs, op);
            && (r in fs || r in op.written ==> r in fs')
            && (r + "/HEAD" in fs || r + "/HEAD" in op.written ==> r + "/HEAD" in fs')
  {
    assert r + "/HEAD" == r + "/" + "HEAD";
  }

  lemma Arrived(fs: Fs, from: string, to: string)
    requires CanRename(fs, from, to) && from + "/HEAD" in fs
    ensures var fs' := Apply(fs, RenameTree(from, to)); to in fs' && to + "/HEAD" in fs' && HasBelow(fs', to)
  {
    assert to + "" == to && from + "" == from;
    MovedTo(fs, from, to, "");
    MovedTo(fs, from, to, "/HEAD");
    HeadIsBelow(Apply(fs, RenameTree(from, to)), to);
  }

  lemma Left(fs: Fs, from: string, to: string)
    requires CanRename(fs, from, to) && forall p :: InOrUnder(p, from) ==> !InOrUnder(p, to)
    ensures var fs' := Apply(fs, RenameTree(from, to)); from !in fs' && from + "/HEAD" !in fs' && !HasBelow(fs', from)
  {
    assert from + "/HEAD" == from + "/" + "HEAD";
    MovedAway(fs, from, to, from);
    MovedAway(fs, from, to, from + "/HEAD");
    forall p | from + "/" <= p ensures p !in Apply(fs, RenameTree(from, to)) { MovedAway(fs, from, to, p); }
  }

  lemma MovedAway(fs: Fs, from: string, to: string, p: string)
    requires CanRename(fs, from, to) && InOrUnder(p, from) && !InOrUnder(p, to)
    ensures p !in Apply(fs, RenameTree(from, to))
  {
    if p in Moved(fs, from, to) {
      var o :| o in fs && InOrUnder(o, from) && p == to + o[|from|..];
      MovedBelow(o, from, to);
    }
  }

  lemma MovedTo(fs: Fs, from: string, to: string, rest: string)
    requires CanRename(fs, from, to) && from + rest in fs && (rest == "" || rest[0] == '/')
    ensures to + rest in Apply(fs, RenameTree(from, to))
  {
    var p, q := from + rest, to + rest;
    assert p[|from|..] == rest && q[|to|..] == rest;
    if rest == "" {
      assert p == from;
    } else {
      assert p[..|from| + 1] == from + "/";
    }
    assert InOrUnder(p, from);
    assert q in Moved(fs, from, to);
  }

  // ---------------------------------------------------------------------------------
  // Every step keeps the agreement
  // ---------------------------------------------------------------------------------

  /** For the maps, `n` is where it was. */
  predicate SameEntries(s: M.State, s': M.State, n: string) {
    && (n in s'.mirrors <==> n in s.mirrors) && (n in s'.staging <==> n in s.staging)
    && (n in s'.trash <==> n in s.trash)
  }

  lemma NothingChanged(s: M.State, s': M.State, fs: Fs, fs': Fs, n: string)
    requires Agrees(s, fs, n) && SameEntries(s, s', n) && SameRoots(fs, fs', n)
    ensures Agrees(s', fs', n)
  {
  }

  lemma ParentsOutside(fs: Fs, n: string)
    ensures SameRoots(fs, Apply(fs, MakeParents(n)), n)
  {
    assert n + "" == n;
    forall p, b | IsSuffix(b) && InOrUnder(p, n + b) ensures p !in Ancestors(n) {
      if p in Ancestors(n) { AncestorBelow(n, p, n + b); }
    }
    UntouchedRoot(fs, MakeParents(n), n + "");
    UntouchedRoot(fs, MakeParents(n), n + INCOMING_SUFFIX);
    UntouchedRoot(fs, MakeParents(n), n + EVICTING_SUFFIX);
  }

  lemma StagingRemoved(s: M.State, s': M.State, fs: Fs, n: string)
    requires Agrees(s, fs, n) && SameEntries(s.(staging := s.staging - {n}), s', n)
    ensures Agrees(s', Apply(fs, RemoveTree(StagingPath(n))), n)
  {
    var op := RemoveTree(StagingPath(n));
    assert n + "" == n;
    Removed(fs, StagingPath(n));
    OtherRoot(fs, op, n, INCOMING_SUFFIX, "");
    OtherRoot(fs, op, n, INCOMING_SUFFIX, EVICTING_SUFFIX);
  }

  lemma TrashRemoved(s: M.State, s': M.State, fs: Fs, n: string)
    requires Agrees(s, fs, n) && SameEntries(s.(trash := s.trash - {n}), s', n)
    ensures Agrees(s', Apply(fs, RemoveTree(TrashPath(n))), n)
  {
    var op := RemoveTree(TrashPath(n));
    assert n + "" == n;
    Removed(fs, TrashPath(n));
    OtherRoot(fs, op, n, EVICTING_SUFFIX, "");
    OtherRoot(fs, op, n, EVICTING_SUFFIX, INCOMING_SUFFIX);
  }

  lemma TrashKept(s: M.State, s': M.State, fs: Fs, ops: seq<Op>, n: string)
    requires Agrees(s, fs, n) && SameEntries(s, s', n) && RemovesSome(fs, TrashPath(n), ops)
    ensures Agrees(s', Apply(fs, ops[0]), n)
  {
    var op := ops[0];
    assert n + "" == n;
    OtherRoot(fs, op, n, EVICTING_SUFFIX, "");
    OtherRoot(fs, op, n, EVICTING_SUFFIX, INCOMING_SUFFIX);
    if p :| p in Apply(fs, op) && TrashPath(n) + "/" <= p { assert p in fs; }
  }

  lemma MirrorRemoved(s: M.State, s': M.State, fs: Fs, n: string)
    requires Agrees(s, fs, n) && SameEntries(s.(mirrors := s.mirrors - {n}), s', n)
    ensures Agrees(s', Apply(fs, RemoveTree(n)), n)
  {
    var op := RemoveTree(n);
    assert n + "" == n;
    Removed(fs, n);
    OtherRoot(fs, op, n, "", INCOMING_SUFFIX);
    OtherRoot(fs, op, n, "", EVICTING_SUFFIX);
  }

  lemma StagingWorked(s: M.State, s': M.State, fs: Fs, ops: seq<Op>, n: string)
    requires Agrees(s, fs, n) && WorksBelow(StagingPath(n), ops)
    requires SameEntries(s, s'.(staging := s.staging), n) && n in s'.staging
    requires n in s.staging || (StagingPath(n) in ops[0].written && StagingPath(n) + "/HEAD" in ops[0].written)
    ensures Agrees(s', Apply(fs, ops[0]), n)
  {
    var op := ops[0];
    assert n + "" == n;
    Worked(fs, op, StagingPath(n));
    OtherRoot(fs, op, n, INCOMING_SUFFIX, "");
    OtherRoot(fs, op, n, INCOMING_SUFFIX, EVICTING_SUFFIX);
  }

  lemma MirrorWorked(s: M.State, s': M.State, fs: Fs, ops: seq<Op>, n: string)
    requires Agrees(s, fs, n) && WorksBelow(n, ops) && SameEntries(s, s', n) && n in s.mirrors
    ensures Agrees(s', Apply(fs, ops[0]), n)
  {
    var op := ops[0];
    assert n + "" == n;
    HeadIsBelow(fs, n);
    Worked(fs, op, n);
    OtherRoot(fs, op, n, "", INCOMING_SUFFIX);
    OtherRoot(fs, op, n, "", EVICTING_SUFFIX);
  }

  lemma Published(s: M.State, s': M.State, fs: Fs, n: string)
    requires Agrees(s, fs, n) && n in s.staging && n !in s.mirrors
    requires n in s'.mirrors && n !in s'.staging && (n in s'.trash <==> n in s.trash)
    ensures Agrees(s', Apply(fs, RenameTree(StagingPath(n), n)), n)
  {
    assert n + "" == n;
    GuardsAgree(s, fs, n);
    forall p | InOrUnder(p, StagingPath(n)) ensures !InOrUnder(p, n) {
      if InOrUnder(p, n) { RootsApart(n, INCOMING_SUFFIX, "", p); }
    }
    Arrived(fs, StagingPath(n), n);
    Left(fs, StagingPath(n), n);
    ThirdRoot(fs, RenameTree(StagingPath(n), n), n, INCOMING_SUFFIX, "", EVICTING_SUFFIX);
  }

  lemma Evicted(s: M.State, s': M.State, fs: Fs, n: string)
    requires Agrees(s, fs, n) && n in s.mirrors && n !in s.trash
    requires n !in s'.mirrors && n in s'.trash && (n in s'.staging <==> n in s.staging)
    ensures Agrees(s', Apply(fs, RenameTree(n, TrashPath(n))), n)
  {
    assert n + "" == n;
    GuardsAgree(s, fs, n);
    forall p | InOrUnder(p, n) ensures !InOrUnder(p, TrashPath(n)) {
      if InOrUnder(p, TrashPath(n)) { RootsApart(n, "", EVICTING_SUFFIX, p); }
    }
    Arrived(fs, n, TrashPath(n));
    Left(fs, n, TrashPath(n));
    ThirdRoot(fs, RenameTree(n, TrashPath(n)), n, "", EVICTING_SUFFIX, INCOMING_SUFFIX);
  }

  /** The name a step works on and `n` are one and the same, or do not get in each other's way. */
  predicate Apart(m: string, n: string) { Accepts(m) && Accepts(n) && (n == m || !Related(n, m)) }

  /** Another name's step. */
  lemma ElsewhereAgrees(s: M.State, s': M.State, fs: Fs, ops: seq<Op>, m: string, n: string)
    requires Agrees(s, fs, n) && SameEntries(s, s', n) && Apart(m, n) && n != m
    requires |ops| <= 1 && (ops != [] ==> ForRepo(ops[0], m))
    ensures Agrees(s', ApplyAll(fs, ops), n)
  {
    ApplyOne(fs, ops);
    if ops != [] {
      UnrelatedRoots(fs, ops[0], m, n);
      NothingChanged(s, s', fs, Apply(fs, ops[0]), n);
    }
  }

  lemma CloneElsewhere(ttl: M.Time, s: M.State, step: M.Step, n: string)
    requires M.CloneStep(step) && M.CloneEnabled(ttl, s, step) && s.threads[step.t].name != n
    ensures SameEntries(s, M.CloneNext(ttl, s, step), n)
  {
  }

  lemma StageHereAgrees(ttl: M.Time, s: M.State, fs: Fs, step: M.Step, ops: seq<Op>)
    requires M.StageStep(step) && M.CloneEnabled(ttl, s, step) && Realises(s, fs, step, ops)
    requires Agrees(s, fs, s.threads[step.t].name) && |ops| <= 1
    ensures var fs' := if ops == [] then fs else Apply(fs, ops[0]);
            Agrees(M.CloneNext(ttl, s, step), fs', s.threads[step.t].name)
  {
    match step
    case CleanStaging(t) => CleanAgrees(ttl, s, fs, step);
    case SpawnClone(t) => SpawnAgrees(ttl, s, fs, t, ops);
    case CloneFail(t, leftover) => FailAgrees(ttl, s, fs, t, leftover, ops);
  }

  lemma SpawnAgrees(ttl: M.Time, s: M.State, fs: Fs, t: nat, ops: seq<Op>)
    requires M.CloneEnabled(ttl, s, M.SpawnClone(t)) && Agrees(s, fs, s.threads[t].name)
    requires WorksBelow(StagingPath(s.threads[t].name), ops)
    requires var root := StagingPath(s.threads[t].name); root in ops[0].written && root + "/HEAD" in ops[0].written
    ensures Agrees(M.CloneNext(ttl, s, M.SpawnClone(t)), Apply(fs, ops[0]), s.threads[t].name)
  {
    StagingWorked(s, M.CloneNext(ttl, s, M.SpawnClone(t)), fs, ops, s.threads[t].name);
  }

  lemma FailAgrees(ttl: M.Time, s: M.State, fs: Fs, t: nat, leftover: bool, ops: seq<Op>)
    requires M.CloneEnabled(ttl, s, M.CloneFail(t, leftover)) && Agrees(s, fs, s.threads[t].name)
    requires Realises(s, fs, M.CloneFail(t, leftover), ops)
    ensures var fs' := if ops == [] then fs else Apply(fs, ops[0]);
            Agrees(M.CloneNext(ttl, s, M.CloneFail(t, leftover)), fs', s.threads[t].name)
  {
    if !leftover {
      CleanAgrees(ttl, s, fs, M.CloneFail(t, leftover));
    } else if ops != [] {
      StagingWorked(s, M.CloneNext(ttl, s, M.CloneFail(t, leftover)), fs, ops, s.threads[t].name);
    }
  }

  lemma CleanAgrees(ttl: M.Time, s: M.State, fs: Fs, step: M.Step)
    requires step.CleanStaging? || (step.CloneFail? && !step.leftover)
    requires M.CloneEnabled(ttl, s, step) && Agrees(s, fs, s.threads[step.t].name)
    ensures var n := s.threads[step.t].name;
            Agrees(M.CloneNext(ttl, s, step), Apply(fs, RemoveTree(StagingPath(n))), n)
  {
    StagingRemoved(s, M.CloneNext(ttl, s, step), fs, s.threads[step.t].name);
  }

  lemma PublishHereAgrees(ttl: M.Time, s: M.State, fs: Fs, step: M.Step, ops: seq<Op>)
    requires M.PublishStep(step) && M.CloneEnabled(ttl, s, step) && Realises(s, fs, step, ops)
    requires Agrees(s, fs, s.threads[step.t].name) && |ops| <= 1
    ensures var fs' := if ops == [] then fs else Apply(fs, ops[0]);
            Agrees(M.CloneNext(ttl, s, step), fs', s.threads[step.t].name)
  {
    var s', n := M.CloneNext(ttl, s, step), s.threads[step.t].name;
    if step.RenameIntoPlace? {
      Published(s, s', fs, n);
    } else if n in s.staging {
      StagingWorked(s, s', fs, ops, n);
    }
  }

  lemma CloneAgrees(ttl: M.Time, s: M.State, fs: Fs, step: M.Step, ops: seq<Op>, n: string)
    requires M.CloneStep(step) && M.CloneEnabled(ttl, s, step) && Realises(s, fs, step, ops) && Agrees(s, fs, n)
    requires DiskName(s, step).Some? ==> Apart(DiskName(s, step).value, n)
    ensures Agrees(M.CloneNext(ttl, s, step), ApplyAll(fs, ops), n)
  {
    OnlyForItsName(s, fs, step, ops);
    ApplyOne(fs, ops);
    if s.threads[step.t].name != n {
      CloneElsewhere(ttl, s, step, n);
      ElsewhereAgrees(s, M.CloneNext(ttl, s, step), fs, ops, s.threads[step.t].name, n);
    } else if M.StageStep(step) {
      StageHereAgrees(ttl, s, fs, step, ops);
    } else {
      PublishHereAgrees(ttl, s, fs, step, ops);
    }
  }

  lemma FetchAgrees(ttl: M.Time, s: M.State, fs: Fs, step: M.Step, ops: seq<Op>, n: string)
    requires M.FetchStep(step) && M.FetchEnabled(ttl, s, step) && Realises(s, fs, step, ops) && Agrees(s, fs, n)
    requires DiskName(s, step).Some? ==> Apart(DiskName(s, step).value, n)
    ensures Agrees(M.FetchNext(ttl, s, step), ApplyAll(fs, ops), n)
  {
    var s' := M.FetchNext(ttl, s, step);
    OnlyForItsName(s, fs, step, ops);
    ApplyOne(fs, ops);
    assert SameEntries(s, s', n);
    if ops != [] {
      if s.threads[step.t].name != n {
        ElsewhereAgrees(s, s', fs, ops, s.threads[step.t].name, n);
      } else {
        MirrorWorked(s, s', fs, ops, n);
      }
    }
  }

  lemma EvictElsewhere(ttl: M.Time, s: M.State, step: M.Step, n: string)
    requires M.EvictWorkStep(step) && M.EvictEnabled(ttl, s, step) && s.evict.name != n
    ensures SameEntries(s, M.EvictNext(ttl, s, step), n)
  {
  }

  /** The removals before and after an eviction's rename. */
  lemma TrashAgrees(ttl: M.Time, s: M.State, fs: Fs, step: M.Step, ops: seq<Op>)
    requires step.EvictClearTrash? || step.EvictRemoveTrash?
    requires M.EvictEnabled(ttl, s, step) && Realises(s, fs, step, ops) && Agrees(s, fs, s.evict.name)
    ensures Agrees(M.EvictNext(ttl, s, step), Apply(fs, ops[0]), s.evict.name)
  {
    var s' := M.EvictNext(ttl, s, step);
    if step.removed {
      TrashRemoved(s, s', fs, s.evict.name);
    } else {
      TrashKept(s, s', fs, ops, s.evict.name);
    }
  }

  lemma EvictRenameAgrees(ttl: M.Time, s: M.State, fs: Fs)
    requires M.EvictEnabled(ttl, s, M.EvictRename) && Agrees(s, fs, s.evict.name)
    ensures Agrees(M.EvictNext(ttl, s, M.EvictRename), Apply(fs, RenameTree(s.evict.name, TrashPath(s.evict.name))),
                   s.evict.name)
  {
    Evicted(s, M.EvictNext(ttl, s, M.EvictRename), fs, s.evict.name);
  }

  lemma EvictOps(ttl: M.Time, s: M.State, fs: Fs, step: M.Step, ops: seq<Op>)
    requires step.EvictClearTrash? || step.EvictRemoveTrash? || step.EvictRename?
    requires M.EvictEnabled(ttl, s, step) && Realises(s, fs, step, ops)
    ensures |ops| == 1
    ensures step.EvictRename? ==> ops[0] == RenameTree(s.evict.name, TrashPath(s.evict.name))
  {
  }

  lemma EvictAgrees(ttl: M.Time, s: M.State, fs: Fs, step: M.Step, ops: seq<Op>, n: string)
    requires step.EvictClearTrash? || step.EvictRemoveTrash? || step.EvictRename?
    requires M.EvictEnabled(ttl, s, step) && Realises(s, fs, step, ops)
    requires Apart(s.evict.name, n) && Agrees(s, fs, n)
    ensures Agrees(M.EvictNext(ttl, s, step), ApplyAll(fs, ops), n)
  {
    OnlyForItsName(s, fs, step, ops);
    ApplyOne(fs, ops);
    if s.evict.name != n {
      EvictElsewhere(ttl, s, step, n);
      ElsewhereAgrees(s, M.EvictNext(ttl, s, step), fs, ops, s.evict.name, n);
    } else {
      EvictOps(ttl, s, fs, step, ops);
      if step.EvictRename? {
        EvictRenameAgrees(ttl, s, fs);
      } else {
        TrashAgrees(ttl, s, fs, step, ops);
      }
    }
  }

  lemma LateElsewhere(ttl: M.Time, s: M.State, step: M.Step, n: string)
    requires M.LateStep(step) && M.LateEnabled(ttl, s, step)
    requires DiskName(s, step).None? || DiskName(s, step).value != n
    ensures SameEntries(s, M.LateNext(ttl, s, step), n)
  {
  }

  lemma LandAgrees(ttl: M.Time, s: M.State, fs: Fs, n: string)
    requires M.LateEnabled(ttl, s, M.LandRename(n)) && Agrees(s, fs, n)
    ensures Agrees(M.LateNext(ttl, s, M.LandRename(n)), Apply(fs, RenameTree(StagingPath(n), n)), n)
  {
    Published(s, M.LateNext(ttl, s, M.LandRename(n)), fs, n);
  }

  lemma BiteAgrees(ttl: M.Time, s: M.State, fs: Fs, n: string, inode: nat, ops: seq<Op>)
    requires M.LateEnabled(ttl, s, M.Bite(n, inode)) && Agrees(s, fs, n)
    requires WorksBelow(if M.Has(s.staging, n, inode) then StagingPath(n) else n, ops)
    ensures Agrees(M.LateNext(ttl, s, M.Bite(n, inode)), Apply(fs, ops[0]), n)
  {
    var s' := M.LateNext(ttl, s, M.Bite(n, inode));
    if M.Has(s.staging, n, inode) {
      StagingWorked(s, s', fs, ops, n);
    } else {
      MirrorWorked(s, s', fs, ops, n);
    }
  }

  lemma EndAgrees(ttl: M.Time, s: M.State, fs: Fs, left: M.Leftover)
    requires M.LateEnabled(ttl, s, M.EndLate(left, true)) && Agrees(s, fs, left.name)
    ensures Agrees(M.LateNext(ttl, s, M.EndLate(left, true)), Apply(fs, RemoveTree(StagingPath(left.name))), left.name)
  {
    StagingRemoved(s, M.LateNext(ttl, s, M.EndLate(left, true)), fs, left.name);
  }

  lemma LateAgrees(ttl: M.Time, s: M.State, fs: Fs, step: M.Step, ops: seq<Op>, n: string)
    requires M.LateStep(step) && M.LateEnabled(ttl, s, step) && Realises(s, fs, step, ops)
    requires DiskName(s, step).Some? ==> Apart(DiskName(s, step).value, n)
    requires Agrees(s, fs, n)
    ensures Agrees(M.LateNext(ttl, s, step), ApplyAll(fs, ops), n)
  {
    OnlyForItsName(s, fs, step, ops);
    ApplyOne(fs, ops);
    if DiskName(s, step).None? || DiskName(s, step).value != n {
      LateElsewhere(ttl, s, step, n);
      if ops != [] { ElsewhereAgrees(s, M.LateNext(ttl, s, step), fs, ops, DiskName(s, step).value, n); }
    } else {
      LateHereAgrees(ttl, s, fs, step, ops, n);
    }
  }

  lemma LateHereAgrees(ttl: M.Time, s: M.State, fs: Fs, step: M.Step, ops: seq<Op>, n: string)
    requires M.LateStep(step) && M.LateEnabled(ttl, s, step) && Realises(s, fs, step, ops) && |ops| <= 1
    requires DiskName(s, step) == Some(n) && Agrees(s, fs, n)
    ensures Agrees(M.LateNext(ttl, s, step), if ops == [] then fs else Apply(fs, ops[0]), n)
  {
    match step
    case LandRename(_) => LandAgrees(ttl, s, fs, n);
    case Bite(_, inode) => BiteAgrees(ttl, s, fs, n, inode, ops);
    case EndLate(left, removed) => if removed { EndAgrees(ttl, s, fs, left); }
  }

  /** The other steps, which leave the maps alone and the tree too, but for a few parents. */
  lemma QuietAgrees(s: M.State, s': M.State, fs: Fs, step: M.Step, ops: seq<Op>, n: string)
    requires Realises(s, fs, step, ops) && SameEntries(s, s', n) && Agrees(s, fs, n)
    requires DiskName(s, step).Some? ==> step.DecideClone? && Apart(DiskName(s, step).value, n)
    ensures Agrees(s', ApplyAll(fs, ops), n)
  {
    ApplyOne(fs, ops);
    if DiskName(s, step).Some? {
      var m := DiskName(s, step).value;
      if m == n {
        ParentsOutside(fs, n);
        NothingChanged(s, s', fs, Apply(fs, ops[0]), n);
      } else {
        ElsewhereAgrees(s, s', fs, ops, m, n);
      }
    }
  }

  lemma HandDeleteAgrees(ttl: M.Time, s: M.State, fs: Fs, m: string, n: string)
    requires m in s.mirrors && Apart(m, n) && Agrees(s, fs, n)
    ensures Agrees(M.WorldNext(ttl, s, M.HandDelete(m)), Apply(fs, RemoveTree(m)), n)
  {
    var s' := M.WorldNext(ttl, s, M.HandDelete(m));
    if m == n {
      MirrorRemoved(s, s', fs, n);
    } else {
      ElsewhereAgrees(s, s', fs, [RemoveTree(m)], m, n);
      ApplyOne(fs, [RemoveTree(m)]);
    }
  }

  lemma EnterQuiet(ttl: M.Time, s: M.State, step: M.Step, n: string)
    requires M.EnterStep(step) && M.EnterEnabled(ttl, s, step)
    ensures SameEntries(s, M.EnterNext(ttl, s, step), n)
  {
  }

  lemma LeaveQuiet(ttl: M.Time, s: M.State, step: M.Step, n: string)
    requires M.LeaveStep(step) && M.LeaveEnabled(ttl, s, step)
    ensures SameEntries(s, M.LeaveNext(ttl, s, step), n)
  {
  }

  lemma DecideQuiet(ttl: M.Time, s: M.State, step: M.Step, n: string)
    requires M.DecideStep(step) && M.DecideEnabled(ttl, s, step)
    ensures SameEntries(s, M.DecideNext(ttl, s, step), n)
  {
  }

  lemma EvictQuiet(ttl: M.Time, s: M.State, step: M.Step, n: string)
    requires M.EvictStep(step) && M.EvictEnabled(ttl, s, step)
    requires !step.EvictClearTrash? && !step.EvictRemoveTrash? && !step.EvictRename?
    ensures SameEntries(s, M.EvictNext(ttl, s, step), n)
  {
  }

  lemma PullAgrees(ttl: M.Time, s: M.State, fs: Fs, step: M.Step, ops: seq<Op>, n: string)
    requires (M.CloneStep(step) || M.FetchStep(step)) && M.Enabled(ttl, s, step) && Realises(s, fs, step, ops) && Agrees(s, fs, n)
    requires DiskName(s, step).Some? ==> Apart(DiskName(s, step).value, n)
    ensures Agrees(M.Next(ttl, s, step), ApplyAll(fs, ops), n)
  {
    if M.CloneStep(step) {
      CloneAgrees(ttl, s, fs, step, ops, n);
    } else {
      FetchAgrees(ttl, s, fs, step, ops, n);
    }
  }

  lemma LockAgrees(ttl: M.Time, s: M.State, fs: Fs, step: M.Step, ops: seq<Op>, n: string)
    requires (M.EnterStep(step) || M.LeaveStep(step) || M.DecideStep(step)) && M.Enabled(ttl, s, step)
    requires Realises(s, fs, step, ops) && Agrees(s, fs, n)
    requires DiskName(s, step).Some? ==> Apart(DiskName(s, step).value, n)
    ensures Agrees(M.Next(ttl, s, step), ApplyAll(fs, ops), n)
  {
    RequestQuiet(ttl, s, step, n);
    QuietAgrees(s, M.Next(ttl, s, step), fs, step, ops, n);
  }

  lemma RequestQuiet(ttl: M.Time, s: M.State, step: M.Step, n: string)
    requires (M.EnterStep(step) || M.LeaveStep(step) || M.DecideStep(step)) && M.Enabled(ttl, s, step)
    ensures SameEntries(s, M.Next(ttl, s, step), n)
  {
    if M.EnterStep(step) {
      EnterQuiet(ttl, s, step, n);
    } else if M.LeaveStep(step) {
      LeaveQuiet(ttl, s, step, n);
    } else {
      DecideQuiet(ttl, s, step, n);
    }
  }

  lemma OtherAgrees(ttl: M.Time, s: M.State, fs: Fs, step: M.Step, ops: seq<Op>, n: string)
    requires !M.ThreadStep(step) && M.Enabled(ttl, s, step) && Realises(s, fs, step, ops) && Agrees(s, fs, n)
    requires DiskName(s, step).Some? ==> Apart(DiskName(s, step).value, n)
    ensures Agrees(M.Next(ttl, s, step), ApplyAll(fs, ops), n)
  {
    if step.EvictClearTrash? || step.EvictRemoveTrash? || step.EvictRename? {
      EvictAgrees(ttl, s, fs, step, ops, n);
    } else if M.EvictStep(step) {
      EvictQuiet(ttl, s, step, n);
      QuietAgrees(s, M.EvictNext(ttl, s, step), fs, step, ops, n);
    } else if M.LateStep(step) {
      LateAgrees(ttl, s, fs, step, ops, n);
    } else if step.HandDelete? {
      HandDeleteAgrees(ttl, s, fs, step.name, n);
      ApplyOne(fs, ops);
    } else {
      QuietAgrees(s, M.WorldNext(ttl, s, step), fs, step, ops, n);
    }
  }

  /** Every step of the protocol on the flat disk is what its operations do on the tree. */
  lemma StepAgrees(ttl: M.Time, s: M.State, fs: Fs, step: M.Step, ops: seq<Op>, n: string)
    requires M.Enabled(ttl, s, step) && Realises(s, fs, step, ops) && Agrees(s, fs, n)
    requires DiskName(s, step).Some? ==> Apart(DiskName(s, step).value, n)
    ensures Agrees(M.Next(ttl, s, step), ApplyAll(fs, ops), n)
  {
    if M.CloneStep(step) || M.FetchStep(step) {
      PullAgrees(ttl, s, fs, step, ops, n);
    } else if M.ThreadStep(step) {
      LockAgrees(ttl, s, fs, step, ops, n);
    } else {
      OtherAgrees(ttl, s, fs, step, ops, n);
    }
  }

  // ---------------------------------------------------------------------------------
  // Runs
  // ---------------------------------------------------------------------------------

  /** The tree after the operations that carry out each step of a run, for steps on names from `names`
      only; `Blocked` if a step was not enabled, its name is not one of these, or the operations do
      not carry it out. */
  ghost function TreeAfter(ttl: M.Time, names: set<string>, s: M.State, fs: Fs, steps: seq<M.Step>, work: seq<seq<Op>>)
    : RunResult<Fs>
    requires |work| == |steps|
    decreases |steps|
  {
    if steps == [] then Reached(fs)
    else if && M.Enabled(ttl, s, steps[0]) && Realises(s, fs, steps[0], work[0])
            && (DiskName(s, steps[0]).Some? ==> DiskName(s, steps[0]).value in names)
    then TreeAfter(ttl, names, M.Next(ttl, s, steps[0]), ApplyAll(fs, work[0]), steps[1..], work[1..])
    else Blocked
  }

  /** Names that keep out of each other's way. */
  ghost predicate Unrelated(names: set<string>) {
    && (forall n :: n in names ==> Accepts(n))
    && forall n, m :: n in names && m in names && n != m ==> !Related(n, m)
  }

  /** The flat disk is right: for unrelated names, over every run and whatever git does below its
      directories, the maps of the protocol say what is in the tree. So what `Mirror` proves of the
      maps holds of the tree. */
  lemma {:induction false} FlatDiskIsRight(
    ttl: M.Time, names: set<string>, s: M.State, fs: Fs, steps: seq<M.Step>, work: seq<seq<Op>>)
    requires Unrelated(names) && |work| == |steps| && TreeAfter(ttl, names, s, fs, steps, work).Reached?
    requires forall n :: n in names ==> Agrees(s, fs, n)
    ensures M.After(ttl, s, steps).Reached?
    ensures forall n :: n in names ==>
              Agrees(M.After(ttl, s, steps).state, TreeAfter(ttl, names, s, fs, steps, work).state, n)
    decreases |steps|
  {
    if steps != [] {
      var s', fs' := M.Next(ttl, s, steps[0]), ApplyAll(fs, work[0]);
      forall n | n in names ensures Agrees(s', fs', n) {
        assert Agrees(s, fs, n);
        StepAgrees(ttl, s, fs, steps[0], work[0], n);
      }
      FlatDiskIsRight(ttl, names, s', fs', steps[1..], work[1..]);
    }
  }

  /** For instance: where the tree shows a HEAD, a clone has finished, unless a call left behind by a
      dropped request has taken effect since. */
  lemma HeadMeansFinished(
    ttl: M.Time, names: set<string>, s0: M.State, fs: Fs, steps: seq<M.Step>, work: seq<seq<Op>>, n: string)
    requires M.Init(s0) && Unrelated(names) && n in names
    requires |work| == |steps| && TreeAfter(ttl, names, s0, fs, steps, work).Reached?
    requires forall m :: m in names ==> Agrees(s0, fs, m)
    ensures M.After(ttl, s0, steps).Reached?
    ensures var s := M.After(ttl, s0, steps).state;
            n + "/HEAD" in TreeAfter(ttl, names, s0, fs, steps, work).state && n !in s.landed ==>
              n in s.mirrors && s.mirrors[n].body.Complete?
  {
    FlatDiskIsRight(ttl, names, s0, fs, steps, work);
    M.AtomicPublication(ttl, s0, steps, n, 0);
    assert Agrees(M.After(ttl, s0, steps).state, TreeAfter(ttl, names, s0, fs, steps, work).state, n);
  }
}
