/** Repository names and the paths they live under (src/repo.rs, with `is_lfs_blob` and `rel_name`
    of src/evict.rs). Paths are written relative to the cache root. */
module Names {
  import opened Common

  const INCOMING_SUFFIX: string := ".__incoming__"
  const EVICTING_SUFFIX: string := ".__evicting__"
  const LFS_OBJECTS_DIR: string := ".__lfs__"

  // ---------------------------------------------------------------------------------
  // Strings
  // ---------------------------------------------------------------------------------

  function Split(s: string): (r: seq<string>)
    ensures |r| >= 1
  {
    if s == [] then [""]
    else if s[0] == '/' then [""] + Split(s[1..])
    else
      var r := Split(s[1..]);
      [[s[0]] + r[0]] + r[1..]
  }

  function Join(cs: seq<string>): string {
    if cs == [] then "" else if |cs| == 1 then cs[0] else cs[0] + "/" + Join(cs[1..])
  }

  predicate Contains(s: string, sub: string) {
    sub <= s || (s != [] && Contains(s[1..], sub))
  }

  predicate EndsWith(s: string, suffix: string) {
    |suffix| <= |s| && s[|s| - |suffix|..] == suffix
  }

  function TrimStart(s: string): string {
    if s != [] && s[0] == '/' then TrimStart(s[1..]) else s
  }

  function TrimEnd(s: string): string {
    if s != [] && s[|s| - 1] == '/' then TrimEnd(s[..|s| - 1]) else s
  }

  lemma {:induction false} ContainsAt(s: string, sub: string, i: nat)
    requires i + |sub| <= |s| && s[i..i + |sub|] == sub
    ensures Contains(s, sub)
    decreases |s|
  {
    if i == 0 {
      assert sub == s[..|sub|];
    } else {
      assert s[1..][i - 1..i - 1 + |sub|] == s[i..i + |sub|];
      ContainsAt(s[1..], sub, i - 1);
    }
  }

  /** Where an occurrence is. */
  lemma {:induction false} ContainsWitness(s: string, sub: string) returns (i: nat)
    requires Contains(s, sub)
    ensures i + |sub| <= |s| && s[i..i + |sub|] == sub
    decreases |s|
  {
    if sub <= s {
      i := 0;
      assert s[0..|sub|] == s[..|sub|];
    } else {
      var j := ContainsWitness(s[1..], sub);
      assert s[1..][j..j + |sub|] == s[j + 1..j + 1 + |sub|];
      i := j + 1;
    }
  }

  predicate SlashFree(c: string) { '/' !in c }

  predicate AllSlashFree(cs: seq<string>) { forall i :: 0 <= i < |cs| ==> SlashFree(cs[i]) }

  /** Joining undoes splitting. */
  lemma {:induction false} JoinOfSplit(s: string)
    ensures Join(Split(s)) == s
    ensures AllSlashFree(Split(s))
    decreases |s|
  {
    if s != [] {
      JoinOfSplit(s[1..]);
      var r := Split(s[1..]);
      if s[0] == '/' {
        assert ([""] + r)[1..] == r;
      } else {
        var q := [[s[0]] + r[0]] + r[1..];
        assert q[1..] == r[1..];
      }
    }
  }

  /** Splitting undoes joining, for components without slashes. */
  lemma {:induction false} SplitOfJoin(cs: seq<string>)
    requires cs != [] && AllSlashFree(cs)
    ensures Split(Join(cs)) == cs
    decreases |cs|
  {
    var rest := cs[1..];
    if rest == [] {
      SplitSlashFree(cs[0]);
    } else {
      SplitOfJoin(rest);
      SplitAtSlash(cs[0], Join(rest));
      assert cs[0] + "/" + Join(rest) == cs[0] + ("/" + Join(rest));
    }
  }

  lemma {:induction false} SplitSlashFree(c: string)
    requires SlashFree(c)
    ensures Split(c) == [c]
    decreases |c|
  {
    if c != [] {
      SplitSlashFree(c[1..]);
      assert [c[0]] + c[1..] == c;
    }
  }

  lemma {:induction false} SplitAtSlash(c: string, rest: string)
    requires SlashFree(c)
    ensures Split(c + ("/" + rest)) == [c] + Split(rest)
    decreases |c|
  {
    var s := c + ("/" + rest);
    if c == [] {
      assert s[1..] == rest;
    } else {
      assert s[1..] == c[1..] + ("/" + rest);
      SplitAtSlash(c[1..], rest);
      assert [c[0]] + c[1..] == c;
      assert ([c[1..]] + Split(rest))[1..] == Split(rest);
    }
  }

  lemma {:induction false} SplitConcat(a: string, b: string)
    ensures Split(a + ("/" + b)) == Split(a) + Split(b)
    decreases |a|
  {
    var s := a + ("/" + b);
    if a == "" {
      assert s[1..] == b;
    } else {
      assert s[1..] == a[1..] + ("/" + b);
      SplitConcat(a[1..], b);
    }
  }

  /** A slash-free suffix goes to the last component. */
  lemma {:induction false} SplitSuffix(a: string, suffix: string)
    requires SlashFree(suffix)
    ensures var k := |Split(a)| - 1; Split(a + suffix) == Split(a)[..k] + [Split(a)[k] + suffix]
    decreases |a|
  {
    if a == "" {
      assert a + suffix == suffix;
      SplitSlashFree(suffix);
    } else {
      assert (a + suffix)[1..] == a[1..] + suffix;
      SplitSuffix(a[1..], suffix);
      var r := Split(a[1..]);
      if a[0] != '/' && |r| == 1 { assert [a[0]] + (r[0] + suffix) == ([a[0]] + r[0]) + suffix; }
    }
  }

  /** What lies under a directory begins with its components. */
  lemma SplitUnder(path: string, dir: string)
    requires InOrUnder(path, dir)
    ensures Split(dir) <= Split(path)
  {
    if path != dir {
      var rest := path[|dir| + 1..];
      assert path == dir + ("/" + rest);
      SplitConcat(dir, rest);
    }
  }

  /** A shorter path leads to a longer one by name, too. */
  lemma {:induction false} JoinPrefix(q: seq<string>, p: seq<string>)
    requires q != [] && q < p
    ensures Join(q) + "/" <= Join(p)
    decreases |q|
  {
    assert q[0] == p[0];
    if |q| > 1 {
      JoinPrefix(q[1..], p[1..]);
      var head := q[0] + "/";
      assert Join(q) + "/" == head + (Join(q[1..]) + "/");
      assert Join(p) == head + Join(p[1..]);
    }
  }

  // ---------------------------------------------------------------------------------
  // `resolve`
  // ---------------------------------------------------------------------------------

  predicate GoodComponent(c: string) { c != "" && c != "." && c != ".." }

  predicate Accepts(name: string) {
    && name != "" && '\0' !in name && name[0] != '/'
    && (forall i :: 0 <= i < |Split(name)| ==> GoodComponent(Split(name)[i]))
    && !Contains(name, INCOMING_SUFFIX) && !Contains(name, EVICTING_SUFFIX) && !Contains(name, LFS_OBJECTS_DIR)
  }

  /** Where a path leads when its components are followed one by one, or `None` if it leaves the
      directory it started from: an empty component and `.` stay, `..` goes up. */
  function Follow(cs: seq<string>, at: seq<string>): Option<seq<string>>
    decreases |cs|
  {
    if cs == [] then Some(at)
    else if cs[0] == "" || cs[0] == "." then Follow(cs[1..], at)
    else if cs[0] == ".." then (if at == [] then None else Follow(cs[1..], at[..|at| - 1]))
    else Follow(cs[1..], at + [cs[0]])
  }

  lemma {:induction false} FollowNoFurther(cs: seq<string>, at: seq<string>)
    ensures Follow(cs, at).Some? ==> |Follow(cs, at).value| <= |at| + |cs|
    ensures Follow(cs, at) == Some(at + cs) <==> forall i :: 0 <= i < |cs| ==> GoodComponent(cs[i])
    decreases |cs|
  {
    if cs == [] {
      assert at + cs == at;
    } else if GoodComponent(cs[0]) {
      FollowNoFurther(cs[1..], at + [cs[0]]);
      assert at + [cs[0]] + cs[1..] == at + cs;
      assert cs == [cs[0]] + cs[1..];
    } else if cs[0] != ".." {
      FollowNoFurther(cs[1..], at);
    } else if at != [] {
      FollowNoFurther(cs[1..], at[..|at| - 1]);
    }
  }

  /** `sub` occurs in `s`. */
  ghost predicate Occurs(s: string, sub: string) { exists i :: OccursAt(s, sub, i) }

  predicate OccursAt(s: string, sub: string, i: int) {
    0 <= i && i + |sub| <= |s| && s[i..i + |sub|] == sub
  }

  lemma ContainsExactly(s: string, sub: string)
    ensures Contains(s, sub) <==> Occurs(s, sub)
  {
    if Contains(s, sub) {
      var i := ContainsWitness(s, sub);
      assert OccursAt(s, sub, i);
    }
    if Occurs(s, sub) {
      var i :| OccursAt(s, sub, i);
      ContainsAt(s, sub, i);
    }
  }

  /** What `resolve` accepts: a name that, followed from the cache root, leads exactly where it says,
      component by component and so below the root; without NUL; and with none of the reserved names
      anywhere in it. */
  lemma AcceptsExactly(name: string)
    ensures Accepts(name) <==>
              && name != "" && '\0' !in name && Follow(Split(name), []) == Some(Split(name))
              && !Occurs(name, ".__incoming__") && !Occurs(name, ".__evicting__") && !Occurs(name, ".__lfs__")
  {
    FollowNoFurther(Split(name), []);
    assert [] + Split(name) == Split(name);
    ContainsExactly(name, INCOMING_SUFFIX);
    ContainsExactly(name, EVICTING_SUFFIX);
    ContainsExactly(name, LFS_OBJECTS_DIR);
    if name != "" && name[0] == '/' { assert Split(name)[0] == "" && !GoodComponent(Split(name)[0]); }
  }

  function StagingPath(name: string): string { name + INCOMING_SUFFIX }

  function TrashPath(name: string): string { name + EVICTING_SUFFIX }

  predicate ValidLfsOid(oid: string) {
    |oid| == 64 && forall i :: 0 <= i < 64 ==> '0' <= oid[i] <= '9' || 'a' <= oid[i] <= 'f'
  }

  lemma OidExactly(oid: string)
    ensures ValidLfsOid(oid) <==> |oid| == 64 && forall c :: c in oid ==> c in "0123456789abcdef"
  {
    var digits := "0123456789abcdef";
    if ValidLfsOid(oid) {
      forall c | c in oid ensures c in digits {
        var d := if c <= '9' then c as int - '0' as int else c as int - 'a' as int + 10;
        assert digits[d] == c;
      }
    }
    if |oid| == 64 && forall c :: c in oid ==> c in digits {
      forall i | 0 <= i < 64 ensures '0' <= oid[i] <= '9' || 'a' <= oid[i] <= 'f' { assert oid[i] in oid; }
    }
  }

  function LfsObjectKey(oid: string): string
    requires ValidLfsOid(oid)
  {
    LFS_OBJECTS_DIR + "/" + oid[..2] + "/" + oid
  }

  predicate IsLfsBlob(name: string) { Split(name)[0] == LFS_OBJECTS_DIR }

  /** `path` is `dir` itself or somewhere below it. */
  predicate InOrUnder(path: string, dir: string) { path == dir || dir + "/" <= path }

  lemma UnderContains(n: string, m: string, suffix: string)
    requires InOrUnder(n, m + suffix)
    ensures Contains(n, suffix)
  {
    assert n[..|m + suffix|] == m + suffix;
    assert n[|m|..|m| + |suffix|] == suffix;
    ContainsAt(n, suffix, |m|);
  }

  /** No accepted name lies in or under the staging or trash directory of any other, or in or under
      the object store. */
  lemma NoAliasing(n: string, m: string)
    requires Accepts(n)
    ensures !InOrUnder(n, StagingPath(m)) && !InOrUnder(n, TrashPath(m)) && !InOrUnder(n, LFS_OBJECTS_DIR)
  {
    assert "" + LFS_OBJECTS_DIR == LFS_OBJECTS_DIR;
    if InOrUnder(n, StagingPath(m)) { UnderContains(n, m, INCOMING_SUFFIX); }
    if InOrUnder(n, TrashPath(m)) { UnderContains(n, m, EVICTING_SUFFIX); }
    if InOrUnder(n, LFS_OBJECTS_DIR) { UnderContains(n, "", LFS_OBJECTS_DIR); }
  }

  lemma SuffixInjective(a: string, b: string, suffix: string)
    requires a + suffix == b + suffix
    ensures a == b
  {
    assert a == (a + suffix)[..|a|];
    assert b == (b + suffix)[..|b|];
  }

  lemma FromEnd(a: string, b: string, k: nat)
    requires 1 <= k <= |b|
    ensures (a + b)[|a + b| - k] == b[|b| - k]
  {
  }

  lemma SuffixesDiffer(n: string, m: string)
    ensures StagingPath(n) != TrashPath(m)
  {
    FromEnd(n, INCOMING_SUFFIX, 10);
    FromEnd(m, EVICTING_SUFFIX, 10);
  }

  lemma NotAnObject(n: string, suffix: string, oid: string)
    requires suffix in {INCOMING_SUFFIX, EVICTING_SUFFIX} && ValidLfsOid(oid)
    ensures n + suffix != LfsObjectKey(oid)
  {
    FromEnd(n, suffix, 1);
    FromEnd(LFS_OBJECTS_DIR + "/" + oid[..2] + "/", oid, 1);
  }

  lemma KeyInjective(oid: string, oid': string)
    requires ValidLfsOid(oid) && ValidLfsOid(oid') && LfsObjectKey(oid) == LfsObjectKey(oid')
    ensures oid == oid'
  {
    var key, key' := LfsObjectKey(oid), LfsObjectKey(oid');
    assert oid == key[|key| - 64..];
    assert oid' == key'[|key'| - 64..];
  }

  lemma KeyInStore(oid: string)
    requires ValidLfsOid(oid)
    ensures InOrUnder(LfsObjectKey(oid), LFS_OBJECTS_DIR)
  {
    assert LfsObjectKey(oid) == LFS_OBJECTS_DIR + "/" + (oid[..2] + "/" + oid);
  }

  /** Mirrors, staging directories, trash directories and objects never share a path, and each path
      belongs to one name or one object. */
  lemma NamespacesSeparate(n: string, m: string, oid: string, oid': string)
    requires Accepts(n) && Accepts(m) && ValidLfsOid(oid) && ValidLfsOid(oid')
    ensures n != StagingPath(m) && n != TrashPath(m) && n != LfsObjectKey(oid)
    ensures StagingPath(n) != TrashPath(m)
    ensures StagingPath(n) != LfsObjectKey(oid) && TrashPath(n) != LfsObjectKey(oid)
    ensures StagingPath(n) == StagingPath(m) ==> n == m
    ensures TrashPath(n) == TrashPath(m) ==> n == m
    ensures LfsObjectKey(oid) == LfsObjectKey(oid') ==> oid == oid'
  {
    NoAliasing(n, m);
    KeyInStore(oid);
    SuffixesDiffer(n, m);
    NotAnObject(n, INCOMING_SUFFIX, oid);
    NotAnObject(n, EVICTING_SUFFIX, oid);
    if StagingPath(n) == StagingPath(m) { SuffixInjective(n, m, INCOMING_SUFFIX); }
    if TrashPath(n) == TrashPath(m) { SuffixInjective(n, m, EVICTING_SUFFIX); }
    if LfsObjectKey(oid) == LfsObjectKey(oid') { KeyInjective(oid, oid'); }
  }

  /** `is_lfs_blob` tells the two kinds of index key apart. */
  lemma BlobTestSeparates(n: string, oid: string)
    requires Accepts(n) && ValidLfsOid(oid)
    ensures !IsLfsBlob(n) && IsLfsBlob(LfsObjectKey(oid))
  {
    var key := LfsObjectKey(oid);
    assert key == LFS_OBJECTS_DIR + ("/" + (oid[..2] + "/" + oid));
    SplitAtSlash(LFS_OBJECTS_DIR, oid[..2] + "/" + oid);
    FirstComponentIsPrefix(n);
  }

  /** It is where a key lies that decides, not how it begins. */
  lemma BlobTestExactly(name: string)
    ensures IsLfsBlob(name) <==> InOrUnder(name, ".__lfs__")
  {
    SplitSlashFree(LFS_OBJECTS_DIR);
    if InOrUnder(name, LFS_OBJECTS_DIR) { SplitUnder(name, LFS_OBJECTS_DIR); }
    if IsLfsBlob(name) {
      JoinOfSplit(name);
      var cs := Split(name);
      if |cs| > 1 { assert name == LFS_OBJECTS_DIR + "/" + Join(cs[1..]); }
    }
  }

  lemma {:induction false} FirstComponentIsPrefix(s: string)
    ensures Split(s)[0] <= s
    decreases |s|
  {
    if s != [] && s[0] != '/' { FirstComponentIsPrefix(s[1..]); }
  }

  // ---------------------------------------------------------------------------------
  // Getting the name back
  // ---------------------------------------------------------------------------------

  /** `Path::components`: empty and `.` components do not count. */
  function Normal(cs: seq<string>): seq<string> {
    if cs == [] then [] else (if cs[0] == "" || cs[0] == "." then [] else [cs[0]]) + Normal(cs[1..])
  }

  /** `rel_name` of the directory at a path relative to the root. */
  function RelName(path: string): string { Join(Normal(Split(path))) }

  lemma {:induction false} NormalKeepsGood(cs: seq<string>)
    requires forall i :: 0 <= i < |cs| ==> GoodComponent(cs[i])
    ensures Normal(cs) == cs
    decreases |cs|
  {
    if cs != [] { NormalKeepsGood(cs[1..]); }
  }

  /** A path without `..` leads where its normal components say. */
  lemma {:induction false} NormalFollows(cs: seq<string>, at: seq<string>)
    requires ".." !in cs
    ensures Follow(cs, at) == Some(at + Normal(cs))
    decreases |cs|
  {
    if cs == [] {
      assert at + [] == at;
    } else {
      assert cs == [cs[0]] + cs[1..];
      if GoodComponent(cs[0]) {
        NormalFollows(cs[1..], at + [cs[0]]);
        assert at + [cs[0]] + Normal(cs[1..]) == at + Normal(cs);
      } else {
        NormalFollows(cs[1..], at);
        assert Normal(cs) == Normal(cs[1..]);
      }
    }
  }

  /** The startup scan gives a mirror directory the very name that `resolve` put it under. */
  lemma RelNameRoundTrip(n: string)
    requires Accepts(n)
    ensures RelName(n) == n && Split(n) != [""] && Join(Split(n)) == n
  {
    NormalKeepsGood(Split(n));
    JoinOfSplit(n);
  }

  function RepoNameFromPath(path: string, suffix: string): Option<string> {
    var p := TrimStart(path);
    var tail := TrimStart(suffix);
    if EndsWith(p, tail) then Some(TrimEnd(p[..|p| - |tail|])) else None
  }

  lemma {:induction false} TrailingSlashSplit(s: string)
    requires s != "" && s[|s| - 1] == '/'
    ensures |Split(s)| >= 2 && Split(s)[|Split(s)| - 1] == ""
    decreases |s|
  {
    if |s| > 1 { TrailingSlashSplit(s[1..]); }
  }

  lemma AcceptedEnds(n: string)
    requires Accepts(n)
    ensures n[0] != '/' && n[|n| - 1] != '/'
  {
    assert GoodComponent(Split(n)[|Split(n)| - 1]);
    if n[|n| - 1] == '/' { TrailingSlashSplit(n); }
  }

  /** The endpoints of a repository (`/info/refs`, `/git-upload-pack`, `/info/lfs/objects/batch`)
      give its name back. */
  lemma EndpointRoundTrip(n: string, suffix: string)
    requires Accepts(n) && |suffix| >= 2 && suffix[0] == '/' && suffix[1] != '/'
    ensures RepoNameFromPath("/" + n + suffix, suffix) == Some(n)
  {
    AcceptedEnds(n);
    var path, p, tail := "/" + n + suffix, n + suffix, suffix[1..];
    assert path[1..] == p;
    assert TrimStart(path) == TrimStart(p) == p;
    assert TrimStart(suffix) == TrimStart(tail) == tail;
    assert p[|p| - |tail|..] == tail && p[..|p| - |tail|] == n + "/";
    TrimOneSlash(n);
  }

  predicate AllSlashes(s: string) { forall i :: 0 <= i < |s| ==> s[i] == '/' }

  lemma {:induction false} TrimEndExactly(s: string, r: string)
    ensures TrimEnd(s) == r <==>
              r <= s && AllSlashes(s[|r|..]) && (r != "" ==> r[|r| - 1] != '/')
    decreases |s|
  {
    if s != "" && s[|s| - 1] == '/' {
      var front := s[..|s| - 1];
      TrimEndExactly(front, r);
      if r <= s && |r| < |s| { assert s[|r|..] == front[|r|..] + ['/']; }
    }
  }

  /** `repo_name_from_path` finds a name exactly if the path, without its leading slashes, is that
      name, any number of slashes, and the suffix without its own. */
  lemma RepoNameExactly(path: string, suffix: string, n: string)
    ensures RepoNameFromPath(path, suffix) == Some(n) <==>
              && (n != "" ==> n[|n| - 1] != '/')
              && exists slashes :: AllSlashes(slashes) && TrimStart(path) == n + slashes + TrimStart(suffix)
  {
    var p, tail := TrimStart(path), TrimStart(suffix);
    if EndsWith(p, tail) {
      var front := p[..|p| - |tail|];
      TrimEndExactly(front, n);
      if n <= front { assert p == n + front[|n|..] + tail; }
    }
    if slashes :| AllSlashes(slashes) && p == n + slashes + tail {
      assert p[|p| - |tail|..] == tail && p[..|p| - |tail|] == n + slashes;
      assert (n + slashes)[|n|..] == slashes;
    }
  }

  lemma TrimOneSlash(n: string)
    requires n != "" && n[|n| - 1] != '/'
    ensures TrimEnd(n + "/") == n
  {
    assert (n + "/")[..|n|] == n;
    assert TrimEnd(n) == n;
  }

  // ---------------------------------------------------------------------------------
  // Nested names are accepted
  // ---------------------------------------------------------------------------------

  predicate PlainComponent(c: string) { c != "" && SlashFree(c) && '.' !in c && '\0' !in c }

  /** `resolve` accepts a name below another one, whatever the component between: `x/y`, and with it
      `x/HEAD` and `x/HEAD/z`. */
  lemma NestedNamesAccepted(x: string, y: string, z: string)
    requires PlainComponent(x) && PlainComponent(y) && PlainComponent(z)
    ensures Accepts(x) && Accepts(x + ("/" + y)) && Accepts(x + ("/" + (y + ("/" + z))))
  {
    SplitSlashFree(x);
    SplitSlashFree(y);
    SplitSlashFree(z);
    SplitAtSlash(y, z);
    SplitAtSlash(x, y);
    SplitAtSlash(x, y + ("/" + z));
    PlainNameAccepted(x);
    PlainNameAccepted(x + ("/" + y));
    PlainNameAccepted(x + ("/" + (y + ("/" + z))));
  }

  lemma PlainNameAccepted(name: string)
    requires name != "" && '\0' !in name && '.' !in name && name[0] != '/'
    requires forall i :: 0 <= i < |Split(name)| ==> GoodComponent(Split(name)[i])
    ensures Accepts(name)
  {
    NoDot(name, INCOMING_SUFFIX);
    NoDot(name, EVICTING_SUFFIX);
    NoDot(name, LFS_OBJECTS_DIR);
  }

  lemma PrefixHead(a: string, s: string)
    requires a != "" && a <= s
    ensures a[0] in s
  {
    assert s[0] == a[0];
  }

  lemma {:induction false} NoDot(s: string, sub: string)
    requires '.' !in s && sub != "" && sub[0] == '.'
    ensures !Contains(s, sub)
    decreases |s|
  {
    if sub <= s { PrefixHead(sub, s); }
    if s != [] { NoDot(s[1..], sub); }
  }
}
