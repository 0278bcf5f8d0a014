/** The paths that work on a repository creates, renames or removes (src/git.rs: `clone_mirror`,
    `fetch`, `evict`, `clean_staging`), on a file system that is a tree. `Mirror` and `Evictor` keep
    the disk as a flat map from names; this module says exactly when that is right. */
module Footprint {
  import opened Names

  datatype Item = Directory | Contents(bytes: string)

  /** What is where, relative to the cache root. */
  type Fs = map<string, Item>

  datatype Op =
    | MakeParents(name: string)
    | RemoveTree(root: string)
    | RenameTree(from: string, to: string)
    | Write(root: string, written: Fs, removed: set<string>)   // work below `root`, by git or a removal

  /** The directories that creating the parent of `name` brings about. */
  function Ancestors(name: string): set<string> {
    set i | 0 <= i < |name| && name[i] == '/' :: name[..i]
  }

  /** The operations that serving, refreshing, evicting and deleting by hand repository `m` consist
      of: what the server does itself, and what git and unfinished removals do below its three
      directories. */
  predicate ForRepo(op: Op, m: string) {
    match op
    case MakeParents(name) => name == m
    case RemoveTree(root) => root == m || root == StagingPath(m) || root == TrashPath(m)
    case RenameTree(from, to) => (from == StagingPath(m) && to == m) || (from == m && to == TrashPath(m))
    case Write(root, written, removed) => root == m || root == StagingPath(m) || root == TrashPath(m)
  }

  /** A rename fails if there is nothing to move, or if its target is a directory with contents. */
  predicate CanRename(fs: Fs, from: string, to: string) {
    from in fs && forall p :: p in fs ==> !(to + "/" <= p)
  }

  function Moved(fs: Fs, from: string, to: string): set<string> {
    set p | p in fs && InOrUnder(p, from) :: to + p[|from|..]
  }

  function Apply(fs: Fs, op: Op): Fs {
    match op
    case MakeParents(name) => (map p | p in Ancestors(name) :: Directory) + fs
    case RemoveTree(root) => map p | p in fs && !InOrUnder(p, root) :: fs[p]
    case RenameTree(from, to) =>
      if !CanRename(fs, from, to) then fs
      else
        (map p | p in fs && !InOrUnder(p, from) :: fs[p])
        + (map q | q in Moved(fs, from, to) && from + q[|to|..] in fs :: fs[from + q[|to|..]])
    case Write(root, written, removed) =>
      (map p | p in fs && !(InOrUnder(p, root) && p in removed) :: fs[p])
      + (map p | p in written && InOrUnder(p, root) :: written[p])
  }

  /** The paths an operation may bring about, change or take away. */
  predicate Touches(op: Op, p: string) {
    match op
    case MakeParents(name) => p in Ancestors(name)
    case RemoveTree(root) => InOrUnder(p, root)
    case RenameTree(from, to) => InOrUnder(p, from) || InOrUnder(p, to)
    case Write(root, written, removed) => InOrUnder(p, root)
  }

  /** What else is on disk stays as it is. */
  lemma ChangesOnlyTouched(fs: Fs, op: Op, p: string)
    requires !Touches(op, p)
    ensures p in Apply(fs, op) <==> p in fs
    ensures p in fs ==> Apply(fs, op)[p] == fs[p]
  {
    if op.RenameTree? {
      forall q | q in Moved(fs, op.from, op.to) ensures InOrUnder(q, op.to) {
        var o :| o in fs && InOrUnder(o, op.from) && q == op.to + o[|op.from|..];
        MovedBelow(o, op.from, op.to);
      }
    }
  }

  lemma MovedBelow(p: string, from: string, to: string)
    requires InOrUnder(p, from)
    ensures InOrUnder(to + p[|from|..], to)
  {
    if p == from {
      assert to + p[|from|..] == to;
    } else {
      assert p[|from|] == (from + "/")[|from|] == '/';
      assert (to + p[|from|..])[..|to| + 1] == to + "/";
    }
  }

  /** A rename that goes through moves the tree as it is: what is below the new name, and with what
      contents, is what was below the old one. */
  lemma RenameMovesTree(fs: Fs, from: string, to: string, rest: string)
    requires CanRename(fs, from, to) && (rest == "" || rest[0] == '/')
    ensures var r := Apply(fs, RenameTree(from, to));
            && (to + rest in r <==> from + rest in fs)
            && (from + rest in fs ==> r[to + rest] == fs[from + rest])
  {
    assert from + "" == from && to + "" == to;
    var p, q := from + rest, to + rest;
    assert p[|from|..] == rest && q[|to|..] == rest;
    if rest != "" { assert p[..|from| + 1] == from + "/" && q[..|to| + 1] == to + "/"; }
    assert InOrUnder(p, from);
    assert p in fs <==> q in Moved(fs, from, to) by {
      if q in Moved(fs, from, to) {
        var o :| o in fs && InOrUnder(o, from) && q == to + o[|from|..];
        assert o[|from|..] == rest && o == from + o[|from|..];
      }
    }
  }

  /** Below its directory, work leaves what it has written, and what it neither wrote nor removed. */
  lemma WriteExactly(fs: Fs, root: string, written: Fs, removed: set<string>, p: string)
    requires InOrUnder(p, root)
    ensures var r := Apply(fs, Write(root, written, removed));
            && (p in r <==> p in written || (p in fs && p !in removed))
            && (p in r ==> r[p] == if p in written then written[p] else fs[p])
  {
  }

  // ---------------------------------------------------------------------------------
  // Which repositories get in each other's way
  // ---------------------------------------------------------------------------------

  /** The mirror of `n`, its staging directory and its trash, with all that is in them. */
  predicate Owned(n: string, p: string) {
    InOrUnder(p, n) || InOrUnder(p, StagingPath(n)) || InOrUnder(p, TrashPath(n))
  }

  /** One name is the other, or leads to it component by component. */
  predicate Related(n: string, m: string) { n == m || n + "/" <= m || m + "/" <= n }

  /** Two directories with something in common: one holds the other. */
  lemma Comparable(p: string, a: string, b: string)
    requires InOrUnder(p, a) && InOrUnder(p, b)
    ensures InOrUnder(a, b) || InOrUnder(b, a)
  {
    if p != a && p != b {
      assert p[..|a|] == a && p[..|b|] == b;
      assert p[|a|] == (a + "/")[|a|] && p[|b|] == (b + "/")[|b|];
      if |a| < |b| {
        assert b[..|a| + 1] == p[..|a| + 1] == a + "/";
      } else if |b| < |a| {
        assert a[..|b| + 1] == p[..|b| + 1] == b + "/";
      }
    }
  }

  /** A directory that holds `n` with a suffix of its own holds `n`. */
  lemma HoldsBeforeSuffix(r: string, n: string, suffix: string)
    requires SlashFree(suffix) && r + "/" <= n + suffix
    ensures r + "/" <= n
  {
    assert (n + suffix)[|r|] == (r + "/")[|r|] == '/';
    assert |r| < |n|;
    assert n[..|r| + 1] == (n + suffix)[..|r| + 1];
  }

  predicate IsSuffix(s: string) { s == "" || s == INCOMING_SUFFIX || s == EVICTING_SUFFIX }

  lemma SameRoot(m: string, a: string, n: string, b: string)
    requires Accepts(m) && Accepts(n) && IsSuffix(a) && IsSuffix(b) && m + a == n + b
    ensures m == n
  {
    assert m + "" == m && n + "" == n;
    if a == b {
      SuffixInjective(m, n, a);
    } else if a == "" {
      UnderContains(m, n, b);
    } else if b == "" {
      UnderContains(n, m, a);
    } else {
      SuffixesDiffer(m, n);
      SuffixesDiffer(n, m);
    }
  }

  lemma HeldRoot(m: string, a: string, n: string, b: string)
    requires Accepts(m) && Accepts(n) && IsSuffix(a) && IsSuffix(b) && InOrUnder(n + b, m + a)
    ensures m == n || m + "/" <= n
  {
    if n + b == m + a {
      SameRoot(m, a, n, b);
    } else {
      HoldsBeforeSuffix(m + a, n, b);
      if a == "" {
        assert m + a == m;
      } else {
        UnderContains(n, m, a);
      }
    }
  }

  lemma SharedRoots(m: string, a: string, n: string, b: string, p: string)
    requires Accepts(m) && Accepts(n) && IsSuffix(a) && IsSuffix(b)
    requires InOrUnder(p, m + a) && InOrUnder(p, n + b)
    ensures Related(n, m)
  {
    Comparable(p, m + a, n + b);
    if InOrUnder(n + b, m + a) {
      HeldRoot(m, a, n, b);
    } else {
      HeldRoot(n, b, m, a);
    }
  }

  lemma AncestorBelow(m: string, p: string, r: string)
    requires p in Ancestors(m) && InOrUnder(p, r)
    ensures r + "/" <= m
  {
    var i :| 0 <= i < |m| && m[i] == '/' && p == m[..i];
    if p == r {
      assert m[..i + 1] == r + "/";
    } else {
      assert m[..|r| + 1] == p[..|r| + 1];
    }
  }

  lemma SharedAncestor(m: string, n: string, b: string, p: string)
    requires Accepts(m) && Accepts(n) && IsSuffix(b) && p in Ancestors(m) && InOrUnder(p, n + b)
    ensures Related(n, m)
  {
    AncestorBelow(m, p, n + b);
    if b == "" {
      assert n + b == n;
    } else {
      UnderContains(m, n, b);
    }
  }

  /** The suffix that makes `r` a root of `n`. */
  lemma OwnedRoot(n: string, p: string) returns (b: string)
    requires Owned(n, p)
    ensures IsSuffix(b) && InOrUnder(p, n + b)
  {
    assert n + "" == n;
    b := if InOrUnder(p, n) then "" else if InOrUnder(p, StagingPath(n)) then INCOMING_SUFFIX else EVICTING_SUFFIX;
  }

  lemma TouchedRoot(op: Op, m: string, p: string) returns (a: string)
    requires ForRepo(op, m) && Touches(op, p) && !op.MakeParents?
    ensures IsSuffix(a) && InOrUnder(p, m + a)
  {
    assert Owned(m, p);
    a := OwnedRoot(m, p);
  }

  lemma TouchedAndOwned(m: string, n: string, op: Op, p: string)
    requires Accepts(n) && Accepts(m) && ForRepo(op, m) && Touches(op, p) && Owned(n, p)
    ensures Related(n, m)
  {
    var b := OwnedRoot(n, p);
    if op.MakeParents? {
      SharedAncestor(m, n, b, p);
    } else {
      var a := TouchedRoot(op, m, p);
      SharedRoots(m, a, n, b, p);
    }
  }

  /** Work on `m` can touch something that belongs to `n` exactly when one of the names is the other
      or leads to it. */
  lemma SeparateExactly(n: string, m: string)
    requires Accepts(n) && Accepts(m)
    ensures (exists op, p :: ForRepo(op, m) && Touches(op, p) && Owned(n, p)) <==> Related(n, m)
  {
    if op, p :| ForRepo(op, m) && Touches(op, p) && Owned(n, p) { TouchedAndOwned(m, n, op, p); }
    if Related(n, m) {
      var op, p := RenameTree(StagingPath(m), m), if m + "/" <= n then n else m;
      assert ForRepo(op, m) && Touches(op, p) && Owned(n, p);
    }
  }

  /** So the disk may be taken as flat when no two names in use are related: no operation for one
      changes anything of another's mirror, staging directory or trash. */
  lemma OthersUntouched(fs: Fs, op: Op, m: string, n: string, p: string)
    requires Accepts(n) && Accepts(m) && !Related(n, m) && ForRepo(op, m) && Owned(n, p)
    ensures p in Apply(fs, op) <==> p in fs
    ensures p in fs ==> Apply(fs, op)[p] == fs[p]
  {
    if Touches(op, p) { TouchedAndOwned(m, n, op, p); }
    ChangesOnlyTouched(fs, op, p);
  }

  function ApplyAll(fs: Fs, ops: seq<Op>): Fs
    decreases |ops|
  {
    if ops == [] then fs else ApplyAll(Apply(fs, ops[0]), ops[1..])
  }

  /** Nor does any amount of work on any number of unrelated names. */
  lemma {:induction false} WorkElsewhere(fs: Fs, ops: seq<Op>, names: seq<string>, n: string, p: string)
    requires |names| == |ops| && Accepts(n) && Owned(n, p)
    requires forall i :: 0 <= i < |ops| ==> Accepts(names[i]) && !Related(n, names[i]) && ForRepo(ops[i], names[i])
    ensures p in ApplyAll(fs, ops) <==> p in fs
    ensures p in fs ==> ApplyAll(fs, ops)[p] == fs[p]
    decreases |ops|
  {
    if ops != [] {
      OthersUntouched(fs, ops[0], names[0], n, p);
      WorkElsewhere(Apply(fs, ops[0]), ops[1..], names[1..], n, p);
    }
  }

  /** The object store is apart from every repository. */
  lemma StoreApart(n: string, p: string)
    requires Accepts(n) && InOrUnder(p, LFS_OBJECTS_DIR)
    ensures !Owned(n, p) && p !in Ancestors(n)
  {
    if Owned(n, p) {
      var b := OwnedRoot(n, p);
      Comparable(p, n + b, LFS_OBJECTS_DIR);
      StoreRoot(n, b);
    }
    if p in Ancestors(n) {
      AncestorBelow(n, p, LFS_OBJECTS_DIR);
      InStore(n, "");
    }
  }

  lemma StoreRoot(n: string, b: string)
    requires Accepts(n) && IsSuffix(b)
    ensures !InOrUnder(n + b, LFS_OBJECTS_DIR) && !InOrUnder(LFS_OBJECTS_DIR, n + b)
  {
    if InOrUnder(n + b, LFS_OBJECTS_DIR) { InStore(n, b); }
    if InOrUnder(LFS_OBJECTS_DIR, n + b) { NotAboveStore(n, b); }
  }

  lemma InStore(n: string, b: string)
    requires IsSuffix(b) && InOrUnder(n + b, LFS_OBJECTS_DIR)
    ensures !Accepts(n)
  {
    if n + b == LFS_OBJECTS_DIR {
      NotTheStore(n, b);
    } else {
      HoldsBeforeSuffix(LFS_OBJECTS_DIR, n, b);
      assert "" + LFS_OBJECTS_DIR == LFS_OBJECTS_DIR;
      UnderContains(n, "", LFS_OBJECTS_DIR);
    }
  }

  lemma NotTheStore(n: string, b: string)
    requires IsSuffix(b) && n + b == LFS_OBJECTS_DIR
    ensures !Accepts(n)
  {
    assert |n| + |b| == 8;
    assert b == "" && n == LFS_OBJECTS_DIR;
  }

  lemma NotAboveStore(n: string, b: string)
    requires IsSuffix(b) && InOrUnder(LFS_OBJECTS_DIR, n + b)
    ensures !Accepts(n)
  {
    if n + b == LFS_OBJECTS_DIR {
      NotTheStore(n, b);
    } else {
      assert (n + b + "/")[|n + b|] == '/' == LFS_OBJECTS_DIR[|n + b|];
    }
  }

  // ---------------------------------------------------------------------------------
  // What happens when names are related
  // ---------------------------------------------------------------------------------

  lemma AncestorExactly(m: string, p: string)
    ensures p in Ancestors(m) <==> p + "/" <= m
  {
    if p + "/" <= m {
      assert m[|p|] == (p + "/")[|p|] == '/';
      assert m[..|p|] == (p + "/")[..|p|] == p;
    }
    if p in Ancestors(m) { AncestorBelow(m, p, p); }
  }

  /** Work on `m` can put something at `p`: on some disk, some operation for `m` does. */
  ghost predicate CanPut(m: string, p: string) {
    exists fs: Fs, op :: ForRepo(op, m) && p !in fs && p in Apply(fs, op)
  }

  /** It can exactly at the paths its operations touch. */
  lemma CanPutExactly(m: string, p: string)
    ensures CanPut(m, p) <==> p + "/" <= m || Owned(m, p)
  {
    if CanPut(m, p) {
      var fs: Fs, op :| ForRepo(op, m) && p !in fs && p in Apply(fs, op);
      if !Touches(op, p) { ChangesOnlyTouched(fs, op, p); }
      AncestorExactly(m, p);
    }
    var fs: Fs := map[];
    if p + "/" <= m {
      AncestorExactly(m, p);
      var op := MakeParents(m);
      assert ForRepo(op, m) && p !in fs && p in Apply(fs, op);
    }
    if Owned(m, p) {
      var root := if InOrUnder(p, m) then m else if InOrUnder(p, StagingPath(m)) then StagingPath(m) else TrashPath(m);
      var op := Write(root, map[p := Directory], {});
      assert ForRepo(op, m) && p !in fs && p in Apply(fs, op);
    }
  }

  /** What holds `n/HEAD` is `n/HEAD` itself, or holds `n`. */
  lemma HoldsHead(r: string, n: string)
    requires r + "/" <= n + "/HEAD"
    ensures InOrUnder(n, r)
  {
    var h := n + "/HEAD";
    assert h[|r|] == (r + "/")[|r|] == '/';
    assert |r| <= |n|;
    assert h[..|r|] == (r + "/")[..|r|] == r;
    if |r| == |n| {
      assert h[..|n|] == n;
    } else {
      assert n[..|r| + 1] == h[..|r| + 1];
    }
  }

  lemma HeadOutside(n: string, m: string, suffix: string)
    requires Accepts(n) && (suffix == INCOMING_SUFFIX || suffix == EVICTING_SUFFIX)
    ensures !InOrUnder(n + "/HEAD", m + suffix)
  {
    var h := n + "/HEAD";
    assert h[|h| - 1] == "/HEAD"[4];
    FromEnd(m, suffix, 1);
    if m + suffix + "/" <= h {
      HoldsHead(m + suffix, n);
      UnderContains(n, m, suffix);
    }
  }

  /** Work on `m` - the server's or git's - can put something where the test for mirror `n` looks
      exactly when `m` is `n/HEAD` or lies below it, or `n` is `m` or lies below it. For any other
      name than `m` itself, `n` then counts as cloned although it never was: `x/HEAD` does this to
      `x`, and the ref `refs/remotes/origin/HEAD` of `x` does it to `x/refs/remotes/origin`. */
  lemma HeadAppearsExactly(n: string, m: string)
    requires Accepts(n) && Accepts(m)
    ensures CanPut(m, n + "/HEAD") <==> InOrUnder(m, n + "/HEAD") || InOrUnder(n, m)
  {
    var h := n + "/HEAD";
    CanPutExactly(m, h);
    HeadOutside(n, m, INCOMING_SUFFIX);
    HeadOutside(n, m, EVICTING_SUFFIX);
    if m + "/" <= h { HoldsHead(m, n); }
    if n == m {
      assert h[..|m| + 1] == m + "/";
    } else if m + "/" <= n {
      assert h[..|m| + 1] == n[..|m| + 1];
    }
  }

  /** Work on `m` can put something into the directory that the clone of `n` is to be renamed to
      exactly when the names are related: `x/foo` does this to `x` by being there, and `x` to
      `x/objects` by what git keeps there. */
  lemma InTheWayExactly(n: string, m: string)
    requires Accepts(n) && Accepts(m)
    ensures (exists p :: CanPut(m, p) && n + "/" <= p) <==> Related(n, m)
  {
    if p :| CanPut(m, p) && n + "/" <= p {
      CanPutExactly(m, p);
      if p + "/" <= m {
        assert m[..|n| + 1] == p[..|n| + 1];
      } else {
        var a := OwnedRoot(m, p);
        assert n + "" == n && InOrUnder(p, n + "");
        SharedRoots(m, a, n, "", p);
      }
    }
    if Related(n, m) {
      var p := if n + "/" <= m then m else n + "/x";
      assert n + "/x" == n + "/" + "x";
      if m + "/" <= n { assert (n + "/x")[..|m| + 1] == n[..|m| + 1]; }
      assert Owned(m, p) && n + "/" <= p;
      CanPutExactly(m, p);
    }
  }

  /** Something in the directory makes the rename fail. */
  lemma BlockedRename(fs: Fs, n: string, p: string)
    requires p in fs && n + "/" <= p
    ensures Apply(fs, RenameTree(StagingPath(n), n)) == fs
  {
  }

  // What the server does itself, without git, is enough for half of this.

  /** The paths the server itself puts in place for `m`. */
  function Places(m: string): set<string> { Ancestors(m) + {m, StagingPath(m), TrashPath(m)} }

  /** The server's own work on `m` puts something at `n/HEAD` exactly when `m` is `n/HEAD` or lies
      below it. */
  lemma ServerMakesHead(n: string, m: string)
    ensures n + "/HEAD" in Places(m) <==> InOrUnder(m, n + "/HEAD")
  {
    var h := n + "/HEAD";
    AncestorExactly(m, h);
    assert h[|h| - 1] == "/HEAD"[4];
    FromEnd(m, INCOMING_SUFFIX, 1);
    FromEnd(m, EVICTING_SUFFIX, 1);
  }

  /** Publishing such an `m` does it. */
  lemma PublishingMakesHead(fs: Fs, n: string, m: string)
    requires InOrUnder(m, n + "/HEAD") && CanRename(Apply(fs, MakeParents(m)), StagingPath(m), m)
    ensures n + "/HEAD" in ApplyAll(fs, [MakeParents(m), RenameTree(StagingPath(m), m)])
  {
    var from, fs' := StagingPath(m), Apply(fs, MakeParents(m));
    var rename := RenameTree(from, m);
    assert ApplyAll(fs, [MakeParents(m), rename]) == ApplyAll(fs', [rename]) == ApplyAll(Apply(fs', rename), []);
    if m == n + "/HEAD" {
      assert InOrUnder(from, from) && m + from[|from|..] == m;
      assert m in Moved(fs', from, m) && from + m[|m|..] == from;
    } else {
      AncestorExactly(m, n + "/HEAD");
    }
  }

  /** The server's own work on `m` puts something into the directory of `n` exactly when `n` leads to
      `m`. */
  lemma ServerInTheWay(n: string, m: string)
    ensures (exists p :: p in Places(m) && n + "/" <= p) <==> n + "/" <= m
  {
    if p :| p in Places(m) && n + "/" <= p {
      assert n + "/" <= m by {
        if p in Ancestors(m) {
          AncestorBelow(m, p, n);
        } else if p == StagingPath(m) {
          HoldsBeforeSuffix(n, m, INCOMING_SUFFIX);
        } else if p == TrashPath(m) {
          HoldsBeforeSuffix(n, m, EVICTING_SUFFIX);
        }
      }
    }
    if n + "/" <= m { assert m in Places(m); }
  }
}
