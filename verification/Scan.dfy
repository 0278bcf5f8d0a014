/** The two explicit-stack directory walks of src/evict.rs: `measure`, which adds up a mirror, and
    `find_mirrors`, which looks for mirrors below the cache root. Both are proved against recursion
    on the directory tree. */
module Scan {
  import opened Common
  import opened Index
  import Names

  /** What a directory entry turns out to be. Metadata is that of the entry itself, so a link is
      counted, not followed; only the test for `HEAD` looks through it. A directory that does not
      exist or cannot be listed is an unreadable one. */
  datatype Node =
    | File(len: u64, mtime: Option<int>)
    | Link(len: u64, mtime: Option<int>, toFile: bool)
    | Dir(readable: bool, entries: seq<Entry>)
    | Unknown                       // its metadata cannot be read

  datatype Entry = Entry(name: string, node: Node)

  const EPOCH: int := 0

  function Max(a: int, b: int): int { if a < b then b else a }

  // ---------------------------------------------------------------------------------
  // `measure`
  // ---------------------------------------------------------------------------------

  /** Bytes of a tree, by recursion. */
  function Bytes(n: Node): nat
    decreases n, 1
  {
    match n
    case File(len, _) => len
    case Link(len, _, _) => len
    case Dir(readable, es) => if readable then BytesOf(es) else 0
    case Unknown => 0
  }

  function BytesOf(es: seq<Entry>): nat
    decreases es, 0
  {
    if es == [] then 0 else Bytes(es[0].node) + BytesOf(es[1..])
  }

  /** Newest mtime of a tree's files, by recursion; never before the epoch. */
  function Newest(n: Node): (t: int)
    ensures t >= EPOCH
    decreases n, 1
  {
    match n
    case File(_, mt) => if mt.Some? then Max(EPOCH, mt.value) else EPOCH
    case Link(_, mt, _) => if mt.Some? then Max(EPOCH, mt.value) else EPOCH
    case Dir(readable, es) => if readable then NewestOf(es) else EPOCH
    case Unknown => EPOCH
  }

  function NewestOf(es: seq<Entry>): (t: int)
    ensures t >= EPOCH
    decreases es, 0
  {
    if es == [] then EPOCH else Max(Newest(es[0].node), NewestOf(es[1..]))
  }

  /** Directories in a tree, itself included: what is left for a walk to do. */
  function Dirs(n: Node): nat
    decreases n, 1
  {
    if n.Dir? then 1 + DirsOf(n.entries) else 0
  }

  function DirsOf(es: seq<Entry>): nat
    decreases es, 0
  {
    if es == [] then 0 else Dirs(es[0].node) + DirsOf(es[1..])
  }

  function StackBytes(s: seq<Node>): nat {
    if s == [] then 0 else StackBytes(s[..|s| - 1]) + Bytes(s[|s| - 1])
  }

  function StackNewest(s: seq<Node>): (t: int)
    ensures t >= EPOCH
  {
    if s == [] then EPOCH else Max(StackNewest(s[..|s| - 1]), Newest(s[|s| - 1]))
  }

  function StackDirs(s: seq<Node>): nat {
    if s == [] then 0 else StackDirs(s[..|s| - 1]) + Dirs(s[|s| - 1])
  }

  lemma PushNode(s: seq<Node>, n: Node)
    ensures StackBytes(s + [n]) == StackBytes(s) + Bytes(n)
    ensures StackNewest(s + [n]) == Max(StackNewest(s), Newest(n))
    ensures StackDirs(s + [n]) == StackDirs(s) + Dirs(n)
  {
    assert (s + [n])[..|s|] == s;
  }

  /** One entry of a listing and the rest of it. */
  lemma NextEntry(es: seq<Entry>, i: nat)
    requires i < |es|
    ensures BytesOf(es[i..]) == Bytes(es[i].node) + BytesOf(es[i + 1..])
    ensures NewestOf(es[i..]) == Max(Newest(es[i].node), NewestOf(es[i + 1..]))
    ensures DirsOf(es[i..]) == Dirs(es[i].node) + DirsOf(es[i + 1..])
  {
    assert es[i..][1..] == es[i + 1..];
  }

  lemma {:induction false} WrapAdd(x: nat, b: u64)
    ensures WrappingAdd(Wrap(x), b) == Wrap(x + b)
    decreases x
  {
    if x >= U64_MOD { WrapAdd(x - U64_MOD, b); }
  }

  /** The walk returns the recursive byte sum (modulo 2^64, like the counter it keeps) and the
      newest mtime, and it ends: each turn leaves one directory fewer under the stack. */
  method Measure(dir: Node) returns (size: u64, mtime: int)
    requires dir.Dir?
    ensures size == Wrap(Bytes(dir)) && mtime == Newest(dir)
  {
    size, mtime := 0, EPOCH;
    var stack := [dir];
    ghost var counted: nat := 0;
    PushNode([], dir);
    assert [] + [dir] == stack;
    while stack != []
      invariant forall i :: 0 <= i < |stack| ==> stack[i].Dir?
      invariant size == Wrap(counted) && counted + StackBytes(stack) == Bytes(dir)
      invariant mtime >= EPOCH && Max(mtime, StackNewest(stack)) == Newest(dir)
      decreases StackDirs(stack)
    {
      var d := stack[|stack| - 1];
      stack := stack[..|stack| - 1];
      if !d.readable { continue; }
      size, mtime, stack, counted := MeasureEntries(size, mtime, stack, d.entries, counted);
    }
  }

  /** What is still to be counted while a listing is read: under the stack, and in the rest of it. */
  function BytesLeft(stack: seq<Node>, es: seq<Entry>): nat { StackBytes(stack) + BytesOf(es) }

  function NewestLeft(mtime: int, stack: seq<Node>, es: seq<Entry>): int {
    Max(Max(mtime, StackNewest(stack)), NewestOf(es))
  }

  function DirsLeft(stack: seq<Node>, es: seq<Entry>): nat { StackDirs(stack) + DirsOf(es) }

  /** Pushing the next entry, a directory, leaves all of it still to be counted. */
  lemma PushMoves(mtime: int, stack: seq<Node>, es: seq<Entry>, i: nat)
    requires i < |es|
    ensures BytesLeft(stack + [es[i].node], es[i + 1..]) == BytesLeft(stack, es[i..])
    ensures NewestLeft(mtime, stack + [es[i].node], es[i + 1..]) == NewestLeft(mtime, stack, es[i..])
    ensures DirsLeft(stack + [es[i].node], es[i + 1..]) == DirsLeft(stack, es[i..])
  {
    NextEntry(es, i);
    PushNode(stack, es[i].node);
  }

  /** Counting the next entry, not a directory, takes just that off what is left. */
  lemma CountMoves(mtime: int, stack: seq<Node>, es: seq<Entry>, i: nat)
    requires i < |es| && !es[i].node.Dir? && mtime >= EPOCH
    ensures Bytes(es[i].node) + BytesLeft(stack, es[i + 1..]) == BytesLeft(stack, es[i..])
    ensures NewestLeft(Max(mtime, Newest(es[i].node)), stack, es[i + 1..]) == NewestLeft(mtime, stack, es[i..])
    ensures DirsLeft(stack, es[i + 1..]) == DirsLeft(stack, es[i..])
  {
    NextEntry(es, i);
  }

  /** The inner loop of `measure`: count the files of one listing and push its directories. */
  method MeasureEntries(size0: u64, mtime0: int, stack0: seq<Node>, es: seq<Entry>, ghost counted0: nat)
    returns (size: u64, mtime: int, stack: seq<Node>, ghost counted: nat)
    requires forall i :: 0 <= i < |stack0| ==> stack0[i].Dir?
    requires size0 == Wrap(counted0) && mtime0 >= EPOCH
    ensures forall i :: 0 <= i < |stack| ==> stack[i].Dir?
    ensures size == Wrap(counted) && mtime >= EPOCH
    ensures counted + StackBytes(stack) == counted0 + StackBytes(stack0) + BytesOf(es)
    ensures Max(mtime, StackNewest(stack)) == Max(Max(mtime0, StackNewest(stack0)), NewestOf(es))
    ensures StackDirs(stack) == StackDirs(stack0) + DirsOf(es)
  {
    size, mtime, stack, counted := size0, mtime0, stack0, counted0;
    var i := 0;
    assert es[0..] == es;
    while i < |es|
      invariant 0 <= i <= |es|
      invariant forall i :: 0 <= i < |stack| ==> stack[i].Dir?
      invariant size == Wrap(counted) && mtime >= EPOCH
      invariant counted + BytesLeft(stack, es[i..]) == counted0 + BytesLeft(stack0, es)
      invariant NewestLeft(mtime, stack, es[i..]) == NewestLeft(mtime0, stack0, es)
      invariant DirsLeft(stack, es[i..]) == DirsLeft(stack0, es)
    {
      var n := es[i].node;
      if n.Dir? {
        PushMoves(mtime, stack, es, i);
        stack := stack + [n];
      } else {
        CountMoves(mtime, stack, es, i);
        if !n.Unknown? {
          WrapAdd(counted, n.len);
          size, counted := WrappingAdd(size, n.len), counted + n.len;
          if n.mtime.Some? && n.mtime.value > mtime { mtime := n.mtime.value; }
        }
      }
      i := i + 1;
    }
  }

  // What those sums and maxima range over: the files there are, path by path.

  /** `f` is a file, or a link, at `p` below `n`, reached through readable directories. */
  ghost predicate FileAt(n: Node, p: Path, f: Node)
    decreases |p|
  {
    if p == [] then n == f && (n.File? || n.Link?)
    else
      && n.Dir? && n.readable
      && var c := Lookup(n.entries, p[0]); c.Some? && FileAt(c.value, p[1..], f)
  }

  type PathFile = (Path, Node)

  function Below(name: string, fs: seq<PathFile>): (r: seq<PathFile>)
    ensures |r| == |fs| && forall i :: 0 <= i < |fs| ==> r[i] == ([name] + fs[i].0, fs[i].1)
  {
    seq(|fs|, i requires 0 <= i < |fs| => ([name] + fs[i].0, fs[i].1))
  }

  /** All of them, listed. */
  function Files(n: Node): seq<PathFile>
    decreases n, 1
  {
    match n
    case Dir(readable, es) => if readable then FilesOf(es) else []
    case Unknown => []
    case _ => [([], n)]
  }

  function FilesOf(es: seq<Entry>): seq<PathFile>
    decreases es, 0
  {
    if es == [] then [] else Below(es[0].name, Files(es[0].node)) + FilesOf(es[1..])
  }

  function Length(f: Node): nat { if f.File? || f.Link? then f.len else 0 }

  function Lengths(fs: seq<PathFile>): nat {
    if fs == [] then 0 else Length(fs[0].1) + Lengths(fs[1..])
  }

  lemma {:induction false} LengthsBelow(name: string, fs: seq<PathFile>, rest: seq<PathFile>)
    ensures Lengths(Below(name, fs) + rest) == Lengths(fs) + Lengths(rest)
    decreases |fs|
  {
    var b := Below(name, fs);
    if fs == [] {
      assert b + rest == rest;
    } else {
      assert b[1..] == Below(name, fs[1..]);
      assert (b + rest)[1..] == b[1..] + rest;
      LengthsBelow(name, fs[1..], rest);
    }
  }

  lemma {:induction false} BytesAreLengths(n: Node)
    ensures Bytes(n) == Lengths(Files(n))
    decreases n, 1
  {
    if n.Dir? && n.readable { BytesOfAreLengths(n.entries); }
  }

  lemma {:induction false} BytesOfAreLengths(es: seq<Entry>)
    ensures BytesOf(es) == Lengths(FilesOf(es))
    decreases es, 0
  {
    if es != [] {
      BytesAreLengths(es[0].node);
      BytesOfAreLengths(es[1..]);
      LengthsBelow(es[0].name, Files(es[0].node), FilesOf(es[1..]));
    }
  }

  lemma BelowMember(name: string, fs: seq<PathFile>, p: Path, f: Node)
    ensures (p, f) in Below(name, fs) <==> p != [] && p[0] == name && (p[1..], f) in fs
  {
    var b := Below(name, fs);
    if (p, f) in b {
      var i :| 0 <= i < |b| && b[i] == (p, f);
      assert p[1..] == fs[i].0;
    }
    if p != [] && p[0] == name && (p[1..], f) in fs {
      var i :| 0 <= i < |fs| && fs[i] == (p[1..], f);
      assert [name] + p[1..] == p;
      assert b[i] == (p, f);
    }
  }

  lemma {:induction false} FilesAre(n: Node, p: Path, f: Node)
    requires WellFormed(n)
    ensures (p, f) in Files(n) <==> FileAt(n, p, f)
    decreases n, 1
  {
    if n.Dir? && n.readable { FilesOfAre(n.entries, p, f); }
  }

  lemma {:induction false} FilesOfAre(es: seq<Entry>, p: Path, f: Node)
    requires WellFormedEntries(es)
    ensures (p, f) in FilesOf(es) <==>
              p != [] && var c := Lookup(es, p[0]); c.Some? && FileAt(c.value, p[1..], f)
    decreases es, 0
  {
    if es != [] {
      var e := es[0];
      BelowMember(e.name, Files(e.node), p, f);
      FilesOfAre(es[1..], p, f);
      if p != [] { FilesAre(e.node, p[1..], f); }
    }
  }

  ghost predicate NoRepeats(fs: seq<PathFile>) { forall i, j :: 0 <= i < j < |fs| ==> fs[i].0 != fs[j].0 }

  lemma {:induction false} FilesDiffer(n: Node)
    requires WellFormed(n)
    ensures NoRepeats(Files(n))
    decreases n, 1
  {
    if n.Dir? && n.readable { FilesOfDiffer(n.entries); }
  }

  lemma {:induction false} FilesOfDiffer(es: seq<Entry>)
    requires WellFormedEntries(es)
    ensures NoRepeats(FilesOf(es))
    decreases es, 0
  {
    if es != [] {
      var e := es[0];
      FilesDiffer(e.node);
      FilesOfDiffer(es[1..]);
      var a, b := Below(e.name, Files(e.node)), FilesOf(es[1..]);
      var all: seq<PathFile> := a + b;
      forall i, j | 0 <= i < j < |all| ensures all[i].0 != all[j].0 {
        if i < |a| <= j {
          var (p, f) := b[j - |a|];
          assert (p, f) in b;
          FilesOfAre(es[1..], p, f);
        } else if j < |a| {
          assert a[i].0[1..] == Files(e.node)[i].0 && a[j].0[1..] == Files(e.node)[j].0;
        }
      }
    }
  }

  /** `measure` adds up every file below the directory, each once and nothing else. */
  lemma BytesAreOfAllFiles(n: Node)
    requires WellFormed(n)
    ensures exists fs :: NoRepeats(fs) && (forall p, f :: (p, f) in fs <==> FileAt(n, p, f)) && Bytes(n) == Lengths(fs)
  {
    FilesDiffer(n);
    forall p, f ensures (p, f) in Files(n) <==> FileAt(n, p, f) { FilesAre(n, p, f); }
    BytesAreLengths(n);
  }

  function When(f: Node): Option<int> { if f.File? || f.Link? then f.mtime else None }

  /** No file below `n` is newer than `t`, and `t` is the time of one of them or the epoch. */
  ghost predicate IsNewest(n: Node, t: int) {
    && t >= 0 && (forall p, f :: FileAt(n, p, f) && When(f).Some? ==> When(f).value <= t)
    && (t == 0 || exists p, f :: FileAt(n, p, f) && When(f) == Some(t))
  }

  lemma {:induction false} NewestIs(n: Node)
    requires WellFormed(n)
    ensures IsNewest(n, Newest(n))
    decreases n, 1
  {
    if n.Dir? {
      if n.readable {
        NewestOfIs(n.entries);
        NewestThrough(n);
      }
    } else if n.File? || n.Link? {
      assert FileAt(n, [], n);
    }
  }

  /** The same for a listing. */
  ghost predicate IsNewestOf(es: seq<Entry>, t: int) {
    && t >= 0
    && (forall i, p, f :: 0 <= i < |es| && FileAt(es[i].node, p, f) && When(f).Some? ==> When(f).value <= t)
    && (t == 0 || exists i, p, f :: 0 <= i < |es| && FileAt(es[i].node, p, f) && When(f) == Some(t))
  }

  lemma {:induction false} NewestOfIs(es: seq<Entry>)
    requires WellFormedEntries(es)
    ensures IsNewestOf(es, NewestOf(es))
    decreases es, 0
  {
    if es != [] {
      var rest, t := es[1..], NewestOf(es);
      NewestIs(es[0].node);
      NewestOfIs(rest);
      forall i, p, f | 0 <= i < |es| && FileAt(es[i].node, p, f) && When(f).Some? ensures When(f).value <= t {
        if i > 0 { assert rest[i - 1] == es[i]; }
      }
      if t != 0 {
        if t == Newest(es[0].node) {
          var p, f :| FileAt(es[0].node, p, f) && When(f) == Some(t);
          assert FileAt(es[0].node, p, f);
        } else {
          var i, p, f :| 0 <= i < |rest| && FileAt(rest[i].node, p, f) && When(f) == Some(t);
          assert es[i + 1] == rest[i];
        }
      }
    }
  }

  lemma NewestThrough(n: Node)
    requires WellFormed(n) && n.Dir? && n.readable && IsNewestOf(n.entries, NewestOf(n.entries))
    ensures IsNewest(n, NewestOf(n.entries))
  {
    var es, t := n.entries, NewestOf(n.entries);
    forall p, f | FileAt(n, p, f) && When(f).Some? ensures When(f).value <= t {
      var c := Lookup(es, p[0]).value;
      var i := EntryOf(es, p[0]);
      assert FileAt(es[i].node, p[1..], f);
    }
    if t != 0 {
      var i, p, f :| 0 <= i < |es| && FileAt(es[i].node, p, f) && When(f) == Some(t);
      LookupEntry(es, i);
      var q := [es[i].name] + p;
      assert q[1..] == p;
      assert FileAt(n, q, f);
    }
  }

  lemma {:induction false} EntryOf(es: seq<Entry>, name: string) returns (i: nat)
    requires Lookup(es, name).Some?
    ensures i < |es| && es[i].name == name && Lookup(es, name) == Some(es[i].node)
    decreases |es|
  {
    if es[0].name == name {
      i := 0;
    } else {
      var k := EntryOf(es[1..], name);
      i := k + 1;
    }
  }

  lemma {:induction false} LookupEntry(es: seq<Entry>, i: nat)
    requires WellFormedEntries(es) && i < |es|
    ensures Lookup(es, es[i].name) == Some(es[i].node)
    decreases |es|
  {
    if i > 0 {
      LookupEntry(es[1..], i - 1);
    }
  }

  // ---------------------------------------------------------------------------------
  // `find_mirrors`
  // ---------------------------------------------------------------------------------

  function Lookup(es: seq<Entry>, name: string): Option<Node> {
    if es == [] then None else if es[0].name == name then Some(es[0].node) else Lookup(es[1..], name)
  }

  /** `dir.join("HEAD").is_file()`. */
  predicate HasHead(n: Node) {
    n.Dir? &&
    var h := Lookup(n.entries, "HEAD");
    h.Some? && (h.value.File? || (h.value.Link? && h.value.toFile))
  }

  predicate Reserved(name: string) {
    Names.EndsWith(name, Names.INCOMING_SUFFIX) || Names.EndsWith(name, Names.EVICTING_SUFFIX)
    || name == Names.LFS_OBJECTS_DIR
  }

  predicate Descends(e: Entry) { e.node.Dir? && !Reserved(e.name) }

  type Path = seq<string>

  datatype Found = Found(path: Path, node: Node)

  /** The mirrors a walk from `path` reports, by recursion. */
  function Mirrors(path: Path, n: Node): multiset<Found>
    decreases n, 1
  {
    if !n.Dir? then multiset{}
    else if HasHead(n) then (if path == [] then multiset{} else multiset{Found(path, n)})
    else if !n.readable then multiset{}
    else MirrorsOf(path, n.entries)
  }

  function MirrorsOf(path: Path, es: seq<Entry>): multiset<Found>
    decreases es, 0
  {
    if es == [] then multiset{}
    else (if Descends(es[0]) then Mirrors(path + [es[0].name], es[0].node) else multiset{}) + MirrorsOf(path, es[1..])
  }

  /** Bytes of the mirrors a walk reports. */
  function MirrorBytes(path: Path, n: Node): (b: nat)
    ensures b <= Bytes(n)
    decreases n, 1
  {
    if !n.Dir? then 0
    else if HasHead(n) then (if path == [] then 0 else Bytes(n))
    else if !n.readable then 0
    else MirrorBytesOf(path, n.entries)
  }

  function MirrorBytesOf(path: Path, es: seq<Entry>): (b: nat)
    ensures b <= BytesOf(es)
    decreases es, 0
  {
    if es == [] then 0
    else (if Descends(es[0]) then MirrorBytes(path + [es[0].name], es[0].node) else 0) + MirrorBytesOf(path, es[1..])
  }

  function StackMirrors(s: seq<Found>): multiset<Found> {
    if s == [] then multiset{} else StackMirrors(s[..|s| - 1]) + Mirrors(s[|s| - 1].path, s[|s| - 1].node)
  }

  function StackMirrorBytes(s: seq<Found>): nat {
    if s == [] then 0 else StackMirrorBytes(s[..|s| - 1]) + MirrorBytes(s[|s| - 1].path, s[|s| - 1].node)
  }

  function StackFoundDirs(s: seq<Found>): nat {
    if s == [] then 0 else StackFoundDirs(s[..|s| - 1]) + Dirs(s[|s| - 1].node)
  }

  lemma NextChild(path: Path, es: seq<Entry>, i: nat)
    requires i < |es|
    ensures MirrorsOf(path, es[i..])
         == (if Descends(es[i]) then Mirrors(path + [es[i].name], es[i].node) else multiset{}) + MirrorsOf(path, es[i + 1..])
    ensures MirrorBytesOf(path, es[i..])
         == (if Descends(es[i]) then MirrorBytes(path + [es[i].name], es[i].node) else 0) + MirrorBytesOf(path, es[i + 1..])
    ensures DirsOf(es[i..]) == Dirs(es[i].node) + DirsOf(es[i + 1..])
  {
    assert es[i..][1..] == es[i + 1..];
  }

  lemma PushFound(s: seq<Found>, f: Found)
    ensures StackMirrors(s + [f]) == StackMirrors(s) + Mirrors(f.path, f.node)
    ensures StackMirrorBytes(s + [f]) == StackMirrorBytes(s) + MirrorBytes(f.path, f.node)
    ensures StackFoundDirs(s + [f]) == StackFoundDirs(s) + Dirs(f.node)
  {
    assert (s + [f])[..|s|] == s;
  }

  function FoundBytes(out: seq<Found>): nat {
    if out == [] then 0 else FoundBytes(out[..|out| - 1]) + Bytes(out[|out| - 1].node)
  }

  lemma Report(out: seq<Found>, f: Found)
    ensures multiset(out + [f]) == multiset(out) + multiset{f}
    ensures FoundBytes(out + [f]) == FoundBytes(out) + Bytes(f.node)
  {
    assert (out + [f])[..|out|] == out;
  }

  /** The walk reports what the recursion does, each as often, and the trees it reports add up to no
      more than the whole. */
  method FindMirrors(root: Node) returns (out: seq<Found>)
    requires root.Dir?
    ensures multiset(out) == Mirrors([], root)
    ensures FoundBytes(out) <= Bytes(root)
  {
    out := [];
    var stack := [Found([], root)];
    PushFound([], Found([], root));
    assert [] + [Found([], root)] == stack;
    while stack != []
      invariant forall i :: 0 <= i < |stack| ==> stack[i].node.Dir?
      invariant multiset(out) + StackMirrors(stack) == Mirrors([], root)
      invariant FoundBytes(out) + StackMirrorBytes(stack) == MirrorBytes([], root)
      decreases StackFoundDirs(stack)
    {
      var f := stack[|stack| - 1];
      stack := stack[..|stack| - 1];
      if HasHead(f.node) {
        if f.path == [] { continue; }
        Report(out, f);
        out := out + [f];
        continue;
      }
      if !f.node.readable { continue; }
      stack := PushChildren(stack, f);
    }
  }

  /** Push the directories below `f` that are not reserved. */
  method PushChildren(stack: seq<Found>, f: Found) returns (r: seq<Found>)
    requires f.node.Dir? && forall i :: 0 <= i < |stack| ==> stack[i].node.Dir?
    ensures forall i :: 0 <= i < |r| ==> r[i].node.Dir?
    ensures StackMirrors(r) == StackMirrors(stack) + MirrorsOf(f.path, f.node.entries)
    ensures StackMirrorBytes(r) == StackMirrorBytes(stack) + MirrorBytesOf(f.path, f.node.entries)
    ensures StackFoundDirs(r) <= StackFoundDirs(stack) + DirsOf(f.node.entries)
  {
    r := stack;
    var es := f.node.entries;
    var i := 0;
    assert es[0..] == es;
    while i < |es|
      invariant 0 <= i <= |es|
      invariant forall i :: 0 <= i < |r| ==> r[i].node.Dir?
      invariant StackMirrors(r) + MirrorsOf(f.path, es[i..]) == StackMirrors(stack) + MirrorsOf(f.path, es)
      invariant StackMirrorBytes(r) + MirrorBytesOf(f.path, es[i..]) == StackMirrorBytes(stack) + MirrorBytesOf(f.path, es)
      invariant StackFoundDirs(r) + DirsOf(es[i..]) <= StackFoundDirs(stack) + DirsOf(es)
    {
      NextChild(f.path, es, i);
      if es[i].node.Dir? && !Reserved(es[i].name) {
        var child := Found(f.path + [es[i].name], es[i].node);
        PushFound(r, child);
        r := r + [child];
      }
      i := i + 1;
    }
  }

  // ---------------------------------------------------------------------------------
  // Which directories those are
  // ---------------------------------------------------------------------------------

  /** A tree as file systems have them: names in a directory differ, are not empty, and contain no
      slash. */
  predicate WellFormed(n: Node)
    decreases n, 1
  {
    n.Dir? ==> WellFormedEntries(n.entries)
  }

  predicate WellFormedEntries(es: seq<Entry>)
    decreases es, 0
  {
    es != [] ==>
      && es[0].name != "" && Names.SlashFree(es[0].name)
      && Lookup(es[1..], es[0].name).None?
      && WellFormed(es[0].node) && WellFormedEntries(es[1..])
  }

  /** The node at a path. */
  function NodeAt(n: Node, p: Path): Option<Node>
    decreases |p|
  {
    if p == [] then Some(n)
    else if !n.Dir? then None
    else
      var c := Lookup(n.entries, p[0]);
      if c.None? then None else NodeAt(c.value, p[1..])
  }

  /** An outermost mirror: a directory with a `HEAD`, reached through readable directories without
      one, along names that are not reserved. */
  ghost predicate IsOutermostMirror(root: Node, p: Path) {
    && NodeAt(root, p).Some? && HasHead(NodeAt(root, p).value)
    && forall k :: 0 <= k < |p| ==>
         && !Reserved(p[k])
         && NodeAt(root, p[..k]).Some?
         && var d := NodeAt(root, p[..k]).value; d.Dir? && d.readable && !HasHead(d)
  }

  /** The same, unrolled from the top. */
  ghost predicate MirrorAt(n: Node, p: Path)
    decreases |p|
  {
    if p == [] then HasHead(n)
    else
      && n.Dir? && n.readable && !HasHead(n) && !Reserved(p[0])
      && var c := Lookup(n.entries, p[0]); c.Some? && c.value.Dir? && MirrorAt(c.value, p[1..])
  }

  lemma {:induction false} MirrorAtIsOutermost(n: Node, p: Path)
    ensures MirrorAt(n, p) <==> IsOutermostMirror(n, p)
    decreases |p|
  {
    if p != [] {
      assert p[..0] == [];
      if n.Dir? && Lookup(n.entries, p[0]).Some? {
        var c := Lookup(n.entries, p[0]).value;
        MirrorAtIsOutermost(c, p[1..]);
        forall k | 0 <= k < |p[1..]| ensures NodeAt(n, p[..k + 1]) == NodeAt(c, p[1..][..k]) && p[1..][k] == p[k + 1] {
          assert p[..k + 1][1..] == p[1..][..k];
        }
        if IsOutermostMirror(n, p) {
          forall k | 0 <= k < |p[1..]|
            ensures !Reserved(p[1..][k]) && NodeAt(c, p[1..][..k]).Some?
                    && var d := NodeAt(c, p[1..][..k]).value; d.Dir? && d.readable && !HasHead(d)
          {
            assert !Reserved(p[k + 1]) && NodeAt(n, p[..k + 1]).Some?;
          }
          if |p| > 1 { assert NodeAt(n, p[..1]).Some?; assert p[..1][1..] == []; }
          assert p[..0] == [];
        }
        if MirrorAt(n, p) {
          forall k | 0 <= k < |p|
            ensures !Reserved(p[k]) && NodeAt(n, p[..k]).Some?
                    && var d := NodeAt(n, p[..k]).value; d.Dir? && d.readable && !HasHead(d)
          {
            if k > 0 { assert p[1..][k - 1] == p[k]; }
          }
        }
      }
    }
  }

  /** `q` goes on from `path` to the mirror `m` below node `n`. */
  ghost predicate Leads(path: Path, n: Node, q: Path, m: Node) {
    path <= q && MirrorAt(n, q[|path|..]) && NodeAt(n, q[|path|..]) == Some(m)
  }

  /** `q` goes on from `path` through one of the entries to the mirror `m`. */
  ghost predicate LeadsThrough(path: Path, es: seq<Entry>, q: Path, m: Node) {
    && path < q && !Reserved(q[|path|])
    && var c := Lookup(es, q[|path|]);
       c.Some? && c.value.Dir? && Leads(path + [q[|path|]], c.value, q, m)
  }

  lemma PrefixStep(path: Path, name: string, q: Path)
    ensures path + [name] <= q <==> path < q && q[|path|] == name
  {
    if path < q && q[|path|] == name { assert path + [name] == q[..|path| + 1]; }
  }

  lemma LeadsUnfold(path: Path, n: Node, q: Path, m: Node)
    requires n.Dir? && !HasHead(n)
    ensures Leads(path, n, q, m) <==> n.readable && LeadsThrough(path, n.entries, q, m)
  {
    if path < q {
      PrefixStep(path, q[|path|], q);
      assert q[|path|..][1..] == q[|path| + 1..];
      assert q[|path|..][0] == q[|path|];
    } else if path <= q {
      assert q[|path|..] == [];
    }
  }

  lemma {:induction false} CountMirrors(path: Path, n: Node, q: Path, m: Node)
    requires n.Dir? && WellFormed(n) && path != []
    ensures Mirrors(path, n)[Found(q, m)] == if Leads(path, n, q, m) then 1 else 0
    decreases n, 1
  {
    if HasHead(n) {
      if path <= q {
        if q[|path|..] == [] { assert q == path; } else { assert path != q; }
      }
    } else {
      LeadsUnfold(path, n, q, m);
      if n.readable { CountMirrorsOf(path, n.entries, q, m); }
    }
  }

  lemma {:induction false} CountMirrorsOf(path: Path, es: seq<Entry>, q: Path, m: Node)
    requires WellFormedEntries(es)
    ensures MirrorsOf(path, es)[Found(q, m)] == if LeadsThrough(path, es, q, m) then 1 else 0
    decreases es, 0
  {
    if es != [] {
      var e := es[0];
      CountMirrorsOf(path, es[1..], q, m);
      PrefixStep(path, e.name, q);
      if Descends(e) { CountMirrors(path + [e.name], e.node, q, m); }
    }
  }

  /** `find_mirrors` reports exactly the outermost mirrors below the root, each once. */
  lemma ScanFindsOutermostMirrors(root: Node, p: Path, m: Node)
    requires root.Dir? && WellFormed(root)
    ensures Mirrors([], root)[Found(p, m)]
         == if p != [] && IsOutermostMirror(root, p) && NodeAt(root, p) == Some(m) then 1 else 0
  {
    MirrorAtIsOutermost(root, p);
    assert p[0..] == p;
    if HasHead(root) {
      if p != [] { assert p[..0] == []; }
    } else {
      LeadsUnfold([], root, p, m);
      if root.readable { CountMirrorsOf([], root.entries, p, m); }
    }
  }

  /** No reported mirror lies inside another, so no byte is counted twice. */
  lemma ReportedMirrorsAreDisjoint(root: Node, p: Path, q: Path)
    requires IsOutermostMirror(root, p) && IsOutermostMirror(root, q) && p <= q
    ensures p == q
  {
    if |p| < |q| { NoMirrorAbove(root, p, q); }
  }

  lemma NoMirrorAbove(root: Node, p: Path, q: Path)
    requires IsOutermostMirror(root, q) && p < q
    ensures !IsOutermostMirror(root, p)
  {
    assert q[..|p|] == p;
  }

  /** A mirror the server could have put there: a directory with a `HEAD`, below the root, reached
      through readable directories along names that are not reserved. */
  ghost predicate IsMirror(root: Node, p: Path) {
    && p != [] && NodeAt(root, p).Some? && HasHead(NodeAt(root, p).value)
    && forall k :: 0 <= k < |p| ==>
         && !Reserved(p[k])
         && NodeAt(root, p[..k]).Some?
         && var d := NodeAt(root, p[..k]).value; d.Dir? && d.readable
  }

  /** The directory at `q` has a `HEAD`. */
  ghost predicate HeadAt(root: Node, q: Path) {
    NodeAt(root, q).Some? && HasHead(NodeAt(root, q).value)
  }

  ghost predicate Reported(root: Node, p: Path) {
    NodeAt(root, p).Some? && Found(p, NodeAt(root, p).value) in Mirrors([], root)
  }

  lemma ReportedExactly(root: Node, p: Path)
    requires root.Dir? && WellFormed(root) && IsMirror(root, p)
    ensures Reported(root, p) <==> forall k :: 0 <= k < |p| ==> !HeadAt(root, p[..k])
  {
    ScanFindsOutermostMirrors(root, p, NodeAt(root, p).value);
  }

  /** The startup scan misses no mirror exactly when no mirror lies below another `HEAD`: with nested
      names, a restart loses sight of the inner one. */
  lemma AllMirrorsReportedExactly(root: Node)
    requires root.Dir? && WellFormed(root)
    ensures (forall p :: IsMirror(root, p) ==> Reported(root, p))
       <==> (forall p, q :: IsMirror(root, p) && HeadAt(root, q) && q <= p ==> q == p)
  {
    forall p | IsMirror(root, p)
      ensures Reported(root, p) <==> forall q :: HeadAt(root, q) && q <= p ==> q == p
    {
      ReportedExactly(root, p);
      if forall q :: HeadAt(root, q) && q <= p ==> q == p {
        forall k | 0 <= k < |p| ensures !HeadAt(root, p[..k]) { assert p[..k] <= p; }
      }
      if Reported(root, p) {
        forall q | HeadAt(root, q) && q <= p ensures q == p { assert p[..|q|] == q; }
      }
    }
  }

  /** In terms of names: when none leads to another, none is missed. */
  lemma UnrelatedMirrorsReported(root: Node)
    requires root.Dir? && WellFormed(root) && !HasHead(root)
    requires forall p, q :: IsMirror(root, p) && HeadAt(root, q) && q != [] ==> !(Names.Join(q) + "/" <= Names.Join(p))
    ensures forall p :: IsMirror(root, p) ==> Reported(root, p)
  {
    forall p, q | IsMirror(root, p) && HeadAt(root, q) && q <= p ensures q == p {
      if q != [] && q != p { Names.JoinPrefix(q, p); }
    }
    AllMirrorsReportedExactly(root);
  }

  // ---------------------------------------------------------------------------------
  // The entries the index starts from
  // ---------------------------------------------------------------------------------

  lemma {:induction false} PathComponents(n: Node, p: Path)
    requires WellFormed(n) && NodeAt(n, p).Some?
    ensures Names.AllSlashFree(p)
    decreases |p|
  {
    if p != [] {
      LookupWellFormed(n.entries, p[0]);
      PathComponents(Lookup(n.entries, p[0]).value, p[1..]);
    }
  }

  lemma {:induction false} LookupWellFormed(es: seq<Entry>, name: string)
    requires WellFormedEntries(es) && Lookup(es, name).Some?
    ensures Names.SlashFree(name) && WellFormed(Lookup(es, name).value)
    decreases |es|
  {
    if es[0].name != name { LookupWellFormed(es[1..], name); }
  }

  /** The names the scan hands to the index differ, as the index's constructor needs. */
  lemma ScannedNamesDiffer(root: Node, out: seq<Found>, i: nat, j: nat)
    requires root.Dir? && WellFormed(root) && multiset(out) == Mirrors([], root) && i < j < |out|
    ensures Names.Join(out[i].path) != Names.Join(out[j].path)
  {
    var f, g := out[i], out[j];
    assert f in multiset(out) && g in multiset(out);
    ScanFindsOutermostMirrors(root, f.path, f.node);
    ScanFindsOutermostMirrors(root, g.path, g.node);
    if f == g { MultiplicityOfPair(out, i, j); }
    assert f.path != g.path;
    PathComponents(root, f.path);
    PathComponents(root, g.path);
    Names.SplitOfJoin(f.path);
    Names.SplitOfJoin(g.path);
  }

  ghost function MirrorEntry(f: Found): Scanned {
    Scanned(Names.Join(f.path), Wrap(Bytes(f.node)), Newest(f.node))
  }

  /** The mirrors of the startup scan as the index takes them: named by their path, at their size and
      newest mtime, and with names that differ. */
  method ScanMirrors(root: Node) returns (entries: seq<Scanned>, ghost found: seq<Found>)
    requires root.Dir? && WellFormed(root)
    ensures multiset(found) == Mirrors([], root)
    ensures entries == seq(|found|, i requires 0 <= i < |found| => MirrorEntry(found[i]))
    ensures forall i :: 0 <= i < |found| ==>
              && entries[i].name == Names.Join(found[i].path)
              && entries[i].size == Wrap(Bytes(found[i].node)) && entries[i].mtime == Newest(found[i].node)
    ensures DistinctNames(entries)
  {
    var out := FindMirrors(root);
    forall k | 0 <= k < |out| ensures out[k].node.Dir? {
      assert out[k] in multiset(out);
      ScanFindsOutermostMirrors(root, out[k].path, out[k].node);
    }
    entries := [];
    var i := 0;
    while i < |out|
      invariant 0 <= i <= |out| && |entries| == i
      invariant forall k :: 0 <= k < i ==> entries[k] == MirrorEntry(out[k])
    {
      var size, mtime := Measure(out[i].node);
      entries := entries + [Scanned(Names.Join(out[i].path), size, mtime)];
      i := i + 1;
    }
    found := out;
    forall i, j | 0 <= i < j < |entries| ensures entries[i].name != entries[j].name {
      ScannedNamesDiffer(root, out, i, j);
    }
  }

  // ---------------------------------------------------------------------------------
  // What the two tests mean
  // ---------------------------------------------------------------------------------

  /** Follows links, as `Path::is_file` does. */
  predicate IsFile(n: Node) {
    match n
    case File(_, _) => true
    case Link(_, _, toFile) => toFile
    case _ => false
  }

  /** A `HEAD` is a file, or a link to one; in a directory that can be listed or not. */
  lemma HeadExactly(n: Node)
    requires WellFormed(n)
    ensures HasHead(n) <==>
              n.Dir? && (exists i :: 0 <= i < |n.entries| && n.entries[i].name == "HEAD" && IsFile(n.entries[i].node))
  {
    if n.Dir? {
      if HasHead(n) { var i := EntryOf(n.entries, "HEAD"); }
      forall i | 0 <= i < |n.entries| && n.entries[i].name == "HEAD"
        ensures Lookup(n.entries, "HEAD") == Some(n.entries[i].node)
      {
        LookupEntry(n.entries, i);
      }
    }
  }

  lemma ComponentReserved(p: Path, n: string, suffix: string)
    requires Names.AllSlashFree(p) && p != [] && Names.InOrUnder(Names.Join(p), n + suffix)
    requires suffix == Names.INCOMING_SUFFIX || suffix == Names.EVICTING_SUFFIX
    ensures exists k :: 0 <= k < |p| && Reserved(p[k])
  {
    Names.SplitOfJoin(p);
    Names.SplitUnder(Names.Join(p), n + suffix);
    LastReserved(n, suffix);
    var k := |Names.Split(n + suffix)| - 1;
    assert p[k] == Names.Split(n + suffix)[k];
  }

  lemma LastReserved(n: string, suffix: string)
    requires suffix == Names.INCOMING_SUFFIX || suffix == Names.EVICTING_SUFFIX
    ensures var q := Names.Split(n + suffix); Reserved(q[|q| - 1])
  {
    Names.SplitSuffix(n, suffix);
    var last := Names.Split(n)[|Names.Split(n)| - 1];
    assert (last + suffix)[|last|..] == suffix;
  }

  lemma StoreReserved(p: Path)
    requires Names.AllSlashFree(p) && p != [] && Names.InOrUnder(Names.Join(p), Names.LFS_OBJECTS_DIR)
    ensures Reserved(p[0])
  {
    Names.SplitOfJoin(p);
    Names.SplitUnder(Names.Join(p), Names.LFS_OBJECTS_DIR);
    Names.SplitSlashFree(Names.LFS_OBJECTS_DIR);
  }

  /** Nothing that is reported lies in a staging directory, in the trash or in the object store,
      whatever name they are for. */
  lemma NothingReservedReported(root: Node, p: Path, m: Node, n: string)
    requires root.Dir? && WellFormed(root) && Found(p, m) in Mirrors([], root)
    ensures var path := Names.Join(p);
            && !Names.InOrUnder(path, n + ".__incoming__") && !Names.InOrUnder(path, n + ".__evicting__")
            && !Names.InOrUnder(path, ".__lfs__")
  {
    ScanFindsOutermostMirrors(root, p, m);
    PathComponents(root, p);
    if Names.InOrUnder(Names.Join(p), n + Names.INCOMING_SUFFIX) { ComponentReserved(p, n, Names.INCOMING_SUFFIX); }
    if Names.InOrUnder(Names.Join(p), n + Names.EVICTING_SUFFIX) { ComponentReserved(p, n, Names.EVICTING_SUFFIX); }
    if Names.InOrUnder(Names.Join(p), Names.LFS_OBJECTS_DIR) { StoreReserved(p); }
  }

  /** And no name the server accepts has a component that keeps the walk out. */
  lemma AcceptedNeverReserved(n: string, k: nat)
    requires Names.Accepts(n) && k < |Names.Split(n)|
    ensures !Reserved(Names.Split(n)[k])
  {
    var c := Names.Split(n)[k];
    if Names.EndsWith(c, Names.INCOMING_SUFFIX) { ComponentContains(n, k, Names.INCOMING_SUFFIX); }
    if Names.EndsWith(c, Names.EVICTING_SUFFIX) { ComponentContains(n, k, Names.EVICTING_SUFFIX); }
    if c == Names.LFS_OBJECTS_DIR {
      assert c[|c| - |c|..] == c;
      ComponentContains(n, k, Names.LFS_OBJECTS_DIR);
    }
  }

  lemma ComponentContains(n: string, k: nat, suffix: string)
    requires k < |Names.Split(n)| && Names.EndsWith(Names.Split(n)[k], suffix)
    ensures Names.Contains(n, suffix)
  {
    var c := Names.Split(n)[k];
    Names.JoinOfSplit(n);
    var a := ComponentPlace(Names.Split(n), k);
    var i := a + |c| - |suffix|;
    assert n[i..i + |suffix|] == n[a..a + |c|][|c| - |suffix|..];
    Names.ContainsAt(n, suffix, i);
  }

  /** Where a component is in the whole. */
  lemma {:induction false} ComponentPlace(cs: seq<string>, k: nat) returns (i: nat)
    requires k < |cs|
    ensures i + |cs[k]| <= |Names.Join(cs)| && Names.Join(cs)[i..i + |cs[k]|] == cs[k]
    decreases |cs|
  {
    if k == 0 {
      i := 0;
    } else {
      var j := ComponentPlace(cs[1..], k - 1);
      var head := cs[0] + "/";
      i := |head| + j;
      assert Names.Join(cs) == head + Names.Join(cs[1..]);
      assert Names.Join(cs)[i..i + |cs[k]|] == Names.Join(cs[1..])[j..j + |cs[k]|];
    }
  }
}
