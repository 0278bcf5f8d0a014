/** The download links of a rewritten LFS batch response and the requests they turn into
    (src/lfs.rs: `rewrite_download_hrefs`; src/repo.rs: `lfs_object_from_path`; src/server.rs:
    `handle_git`, `size_from_query`). */
module LfsHref {
  import opened Common
  import opened Names

  const MARKER: string := "/info/lfs/objects/"
  const MARKER_STEM: string := "/info/lfs/objects"
  const SIZE_KEY: string := "size="

  // ---------------------------------------------------------------------------------
  // Decimal numbers
  // ---------------------------------------------------------------------------------

  function Decimal(n: nat): string {
    if n < 10 then [('0' as int + n) as char] else Decimal(n / 10) + [('0' as int + n % 10) as char]
  }

  predicate IsDigit(c: char) { '0' <= c <= '9' }

  function ParseDigits(s: string): Option<nat> {
    if s == "" then Some(0) else
      var front := ParseDigits(s[..|s| - 1]);
      if front.Some? && IsDigit(s[|s| - 1]) then Some(front.value * 10 + (s[|s| - 1] as int - '0' as int)) else None
  }

  /** `str::parse::<u64>`: an optional `+`, at least one digit, no overflow. */
  function ParseU64(s: string): Option<nat> {
    var digits := if |s| > 1 && s[0] == '+' then s[1..] else s;
    if digits == "" then None else
      var n := ParseDigits(digits);
      if n.Some? && n.value < U64_MOD then n else None
  }

  lemma {:induction false} DecimalReadsBack(n: nat)
    ensures ParseDigits(Decimal(n)) == Some(n)
    ensures Decimal(n) != "" && forall i :: 0 <= i < |Decimal(n)| ==> IsDigit(Decimal(n)[i])
    decreases n
  {
    var s := Decimal(n);
    if n < 10 {
      assert s[..0] == "";
    } else {
      DecimalReadsBack(n / 10);
      assert s[..|s| - 1] == Decimal(n / 10);
    }
  }

  // ---------------------------------------------------------------------------------
  // Parsing a request
  // ---------------------------------------------------------------------------------

  /** The first occurrence of `sub`. */
  function Find(s: string, sub: string): Option<nat> {
    if sub <= s then Some(0)
    else if s == "" then None
    else
      var r := Find(s[1..], sub);
      if r.Some? then Some(r.value + 1) else None
  }

  function LfsObjectFromPath(path: string): Option<(string, string)> {
    var p := TrimStart(path);
    var idx := Find(p, MARKER);
    if idx.None? || idx.value + |MARKER| > |p| then None else
      var repo, oid := p[..idx.value], p[idx.value + |MARKER|..];
      if repo == "" || !ValidLfsOid(oid) then None else Some((repo, oid))
  }

  function UpTo(s: string, c: char): (r: string)
    ensures r <= s && c !in r
    ensures |r| < |s| ==> s[|r|] == c
  {
    if s == "" || s[0] == c then "" else [s[0]] + UpTo(s[1..], c)
  }

  function SizeFromQuery(query: string): Option<nat>
    decreases |query|
  {
    var kv := UpTo(query, '&');
    if SIZE_KEY <= kv then ParseU64(kv[|SIZE_KEY|..])
    else if kv == query then None
    else SizeFromQuery(query[|kv| + 1..])
  }

  datatype Route =
    | PushRefused
    | InfoRefs
    | LfsObject(repo: string, oid: string, size: Option<nat>)
    | NotFound

  /** The dispatch of `handle_git` for a GET, in its order. */
  function RouteGet(path: string, query: string): Route {
    if EndsWith(path, "/git-receive-pack") || Contains(query, "service=git-receive-pack") then PushRefused
    else if EndsWith(path, "/info/refs") then InfoRefs
    else
      var o := LfsObjectFromPath(path);
      if o.Some? then LfsObject(o.value.0, o.value.1, SizeFromQuery(query)) else NotFound
  }

  /** How an HTTP client turns the part of a URL behind the host into a request. */
  function Request(target: string): Route {
    var path := UpTo(target, '?');
    RouteGet(path, if path == target then "" else target[|path| + 1..])
  }

  /** What `rewrite_download_hrefs` prints behind the advertised base. */
  function Target(repo: string, oid: string, size: nat): string {
    "/" + repo + MARKER + oid + "?" + SIZE_KEY + Decimal(size)
  }

  // ---------------------------------------------------------------------------------
  // The round trip
  // ---------------------------------------------------------------------------------

  lemma OccursInTail(s: string, sub: string, i: int)
    requires s != "" && i >= 1
    ensures OccursAt(s[1..], sub, i - 1) <==> OccursAt(s, sub, i)
  {
    if i + |sub| <= |s| {
      var a, b := s[1..][i - 1..i - 1 + |sub|], s[i..i + |sub|];
      assert |a| == |b| && forall j :: 0 <= j < |a| ==> a[j] == b[j];
    }
  }

  lemma OccursAtStart(s: string, sub: string)
    ensures OccursAt(s, sub, 0) <==> sub <= s
  {
    if |sub| <= |s| { assert s[0..|sub|] == s[..|sub|]; }
  }

  lemma {:induction false} FindFirst(s: string, sub: string, k: nat)
    requires OccursAt(s, sub, k)
    requires forall i :: 0 <= i < k ==> !OccursAt(s, sub, i)
    ensures Find(s, sub) == Some(k)
    decreases |s|
  {
    OccursAtStart(s, sub);
    if k > 0 {
      assert !OccursAt(s, sub, 0);
      OccursInTail(s, sub, k);
      forall i | 0 <= i < k - 1 ensures !OccursAt(s[1..], sub, i) {
        OccursInTail(s, sub, i + 1);
        assert !OccursAt(s, sub, i + 1);
      }
      FindFirst(s[1..], sub, k - 1);
    }
  }

  lemma {:induction false} FindNoLater(s: string, sub: string, k: nat)
    requires OccursAt(s, sub, k)
    ensures Find(s, sub).Some? && Find(s, sub).value <= k
    decreases |s|
  {
    OccursAtStart(s, sub);
    if k > 0 && !(sub <= s) {
      OccursInTail(s, sub, k);
      FindNoLater(s[1..], sub, k - 1);
    }
  }

  /** The marker overlaps itself only by its closing slash. */
  lemma MarkerBorders(k: nat)
    requires 1 <= k < |MARKER|
    ensures MARKER[k..] == MARKER[..|MARKER| - k] <==> k == |MARKER| - 1
  {
    if k != |MARKER| - 1 {
      assert MARKER[k] != '/' || MARKER[k + 1] != 'i';
      assert MARKER[k..][0] == MARKER[k] && MARKER[k..][1] == MARKER[k + 1];
      assert MARKER[..|MARKER| - k][0] == '/' && MARKER[..|MARKER| - k][1] == 'i';
    }
  }

  predicate MarkerFree(repo: string) { !Contains(repo, MARKER) && !EndsWith(repo, MARKER_STEM) }

  /** In `repo` + marker + oid the marker occurs earlier than right after `repo` only when `repo`
      contains it or ends with it up to the slash. */
  lemma EarlierMarker(repo: string, oid: string, i: nat)
    requires i < |repo| && OccursAt(repo + MARKER + oid, MARKER, i)
    ensures !MarkerFree(repo)
  {
    var p := repo + MARKER + oid;
    var m := |MARKER|;
    if i + m <= |repo| {
      assert p[i..i + m] == repo[i..i + m];
      ContainsAt(repo, MARKER, i);
    } else {
      var k := |repo| - i;
      assert p[i..i + m] == repo[i..] + MARKER[..m - k];
      assert MARKER[k..] == MARKER[..m - k] && MARKER[..k] == repo[i..];
      MarkerBorders(k);
      assert MARKER[..m - 1] == MARKER_STEM;
    }
  }

  lemma {:induction false} ContainsAllChars(s: string, sub: string, c: char)
    requires Contains(s, sub) && c in sub
    ensures c in s
    decreases |s|
  {
    if !(sub <= s) { ContainsAllChars(s[1..], sub, c); }
  }

  lemma SizeQuery(size: nat)
    requires size < U64_MOD
    ensures var q := SIZE_KEY + Decimal(size);
            && SizeFromQuery(q) == Some(size)
            && !Contains(q, "service=git-receive-pack")
  {
    DecimalReadsBack(size);
    PlainQuery(Decimal(size));
    QueryReads(Decimal(size));
    NotAPush(SIZE_KEY + Decimal(size));
  }

  lemma PlainQuery(d: string)
    requires forall i :: 0 <= i < |d| ==> IsDigit(d[i])
    ensures '&' !in SIZE_KEY + d && 'v' !in SIZE_KEY + d
  {
    assert '&' !in d && 'v' !in d;
    assert '&' !in SIZE_KEY && 'v' !in SIZE_KEY;
  }

  lemma QueryReads(d: string)
    requires '&' !in SIZE_KEY + d
    ensures SizeFromQuery(SIZE_KEY + d) == ParseU64(d)
  {
    var q := SIZE_KEY + d;
    assert UpTo(q, '&') == q;
    assert q[|SIZE_KEY|..] == d;
  }

  lemma NotAPush(q: string)
    requires 'v' !in q
    ensures !Contains(q, "service=git-receive-pack")
  {
    assert "service=git-receive-pack"[3] == 'v';
    if Contains(q, "service=git-receive-pack") { ContainsAllChars(q, "service=git-receive-pack", 'v'); }
  }

  lemma ObjectPathParses(repo: string, oid: string)
    requires repo != "" && repo[0] != '/' && ValidLfsOid(oid)
    ensures LfsObjectFromPath("/" + repo + MARKER + oid) == Some((repo, oid)) <==> MarkerFree(repo)
  {
    var path, p := "/" + repo + MARKER + oid, repo + MARKER + oid;
    assert path[1..] == p;
    assert TrimStart(path) == TrimStart(p) == p;
    ObjectPathExactly(path, repo, oid);
  }

  lemma MarkerTooEarly(repo: string, oid: string)
    requires !MarkerFree(repo)
    ensures var r := Find(repo + MARKER + oid, MARKER); r.Some? && r.value < |repo|
  {
    var p := repo + MARKER + oid;
    if Contains(repo, MARKER) {
      var i := ContainsWitness(repo, MARKER);
      assert p[i..i + |MARKER|] == repo[i..i + |MARKER|];
      FindNoLater(p, MARKER, i);
    } else {
      MarkerEndsRepo(repo, oid);
      FindNoLater(p, MARKER, |repo| - |MARKER_STEM|);
    }
  }

  /** The last bytes of the repository and the first slash of the marker make a marker. */
  lemma MarkerEndsRepo(repo: string, oid: string)
    requires EndsWith(repo, MARKER_STEM)
    ensures OccursAt(repo + MARKER + oid, MARKER, |repo| - |MARKER_STEM|)
  {
    var p, i := repo + MARKER + oid, |repo| - |MARKER_STEM|;
    assert p[i..|repo|] == MARKER_STEM && p[|repo|] == MARKER[0];
    assert p[i..i + |MARKER|] == p[i..|repo|] + [p[|repo|]];
    assert MARKER_STEM + [MARKER[0]] == MARKER;
  }

  lemma {:induction false} FindOccurs(s: string, sub: string)
    requires Find(s, sub).Some?
    ensures OccursAt(s, sub, Find(s, sub).value)
    decreases |s|
  {
    OccursAtStart(s, sub);
    if !(sub <= s) {
      FindOccurs(s[1..], sub);
      OccursInTail(s, sub, Find(s, sub).value);
    }
  }

  /** A path is that of an object exactly if, without its leading slashes, it is a repository that
      keeps clear of the marker, the marker, and a valid oid. */
  lemma ObjectPathExactly(path: string, repo: string, oid: string)
    ensures LfsObjectFromPath(path) == Some((repo, oid)) <==>
              && repo != "" && ValidLfsOid(oid) && MarkerFree(repo)
              && TrimStart(path) == repo + "/info/lfs/objects/" + oid
  {
    var p := TrimStart(path);
    if LfsObjectFromPath(path) == Some((repo, oid)) {
      FindOccurs(p, MARKER);
      assert p == repo + MARKER + oid;
      if !MarkerFree(repo) { MarkerTooEarly(repo, oid); }
    }
    if repo != "" && ValidLfsOid(oid) && MarkerFree(repo) && p == repo + MARKER + oid {
      MarkerIsFirst(repo, oid);
      assert p[..|repo|] == repo && p[|repo| + |MARKER|..] == oid;
    }
  }

  lemma MarkerIsFirst(repo: string, oid: string)
    requires MarkerFree(repo)
    ensures Find(repo + MARKER + oid, MARKER) == Some(|repo|)
  {
    var p, k := repo + MARKER + oid, |repo|;
    assert p[k..k + |MARKER|] == MARKER;
    forall i | 0 <= i < k ensures !OccursAt(p, MARKER, i) {
      if OccursAt(p, MARKER, i) { EarlierMarker(repo, oid, i); }
    }
    FindFirst(p, MARKER, k);
  }

  // ---------------------------------------------------------------------------------
  // Parameters and dispatch
  // ---------------------------------------------------------------------------------

  function JoinWith(c: char, ps: seq<string>): string {
    if ps == [] then "" else if |ps| == 1 then ps[0] else ps[0] + ([c] + JoinWith(c, ps[1..]))
  }

  /** The first parameter that begins with `size=` decides, and none means no size. */
  lemma {:induction false} SizeOfParameters(ps: seq<string>, k: nat)
    requires ps != [] && k <= |ps| && (forall i :: 0 <= i < |ps| ==> '&' !in ps[i])
    requires forall i :: 0 <= i < k ==> !("size=" <= ps[i])
    requires k < |ps| ==> "size=" <= ps[k]
    ensures SizeFromQuery(JoinWith('&', ps)) == if k < |ps| then ParseU64(ps[k][5..]) else None
    decreases |ps|
  {
    if |ps| == 1 {
      OneParameter(ps[0]);
    } else {
      FirstParameter(ps[0], JoinWith('&', ps[1..]));
      if k > 0 { SizeOfParameters(ps[1..], k - 1); }
    }
  }

  lemma OneParameter(kv: string)
    requires '&' !in kv
    ensures SizeFromQuery(kv) == if "size=" <= kv then ParseU64(kv[5..]) else None
  {
    WholeUpTo(kv, '&');
  }

  lemma FirstParameter(kv: string, rest: string)
    requires '&' !in kv
    ensures SizeFromQuery(kv + ("&" + rest)) == if "size=" <= kv then ParseU64(kv[5..]) else SizeFromQuery(rest)
  {
    UpToSplit(kv, '&', rest);
    assert (kv + ("&" + rest))[|kv| + 1..] == rest;
  }

  lemma {:induction false} WholeUpTo(s: string, c: char)
    requires c !in s
    ensures UpTo(s, c) == s
    decreases |s|
  {
    if s != "" { WholeUpTo(s[1..], c); }
  }

  /** A printed number is read back exactly while it fits 64 bits, with or without a plus sign; and
      nothing but digits after an optional plus sign is read at all. */
  lemma U64Exactly(n: nat, s: string)
    ensures ParseU64(Decimal(n)) == ParseU64("+" + Decimal(n)) == if n < 0x1_0000_0000_0000_0000 then Some(n) else None
    ensures ParseU64(s).Some? ==>
              var d := if s != "" && s[0] == '+' then s[1..] else s;
              d != "" && forall i :: 0 <= i < |d| ==> IsDigit(d[i])
  {
    DecimalReadsBack(n);
    assert ("+" + Decimal(n))[1..] == Decimal(n);
    assert IsDigit(Decimal(n)[0]);
    if ParseU64(s).Some? { AllDigits(if |s| > 1 && s[0] == '+' then s[1..] else s); }
  }

  lemma {:induction false} AllDigits(s: string)
    requires ParseDigits(s).Some?
    ensures forall i :: 0 <= i < |s| ==> IsDigit(s[i])
    decreases |s|
  {
    if s != "" { AllDigits(s[..|s| - 1]); }
  }

  /** No push gets past the dispatch, and an object is served exactly for its own path. */
  lemma RoutesExactly(path: string, query: string, repo: string, oid: string, size: Option<nat>)
    ensures RouteGet(path, query) == PushRefused <==>
              EndsWith(path, "/git-receive-pack") || Occurs(query, "service=git-receive-pack")
    ensures RouteGet(path, query) == LfsObject(repo, oid, size) <==>
              && repo != "" && ValidLfsOid(oid) && MarkerFree(repo) && size == SizeFromQuery(query)
              && TrimStart(path) == repo + "/info/lfs/objects/" + oid && !Occurs(query, "service=git-receive-pack")
    ensures RouteGet(path, query) == InfoRefs <==>
              EndsWith(path, "/info/refs") && !Occurs(query, "service=git-receive-pack")
  {
    ContainsExactly(query, "service=git-receive-pack");
    ObjectPathExactly(path, repo, oid);
    if ValidLfsOid(oid) && TrimStart(path) == repo + MARKER + oid {
      EndsAsTrimmed(path, repo + MARKER, oid);
      HexTail(path, oid, "/git-receive-pack");
      HexTail(path, oid, "/info/refs");
    }
    if EndsWith(path, "/info/refs") && EndsWith(path, "/git-receive-pack") {
      LastOf(path, "/info/refs");
      LastOf(path, "/git-receive-pack");
    }
  }

  lemma {:induction false} EndsAsTrimmed(path: string, a: string, b: string)
    requires TrimStart(path) == a + b
    ensures EndsWith(path, b)
    decreases |path|
  {
    if path != "" && path[0] == '/' {
      EndsAsTrimmed(path[1..], a, b);
      assert path[|path| - |b|..] == path[1..][|path[1..]| - |b|..];
    } else {
      assert path[|path| - |b|..] == b;
    }
  }

  lemma HexTail(path: string, oid: string, suffix: string)
    requires ValidLfsOid(oid) && EndsWith(path, oid) && suffix != "" && suffix[|suffix| - 1] in {'k', 's'}
    ensures !EndsWith(path, suffix)
  {
    LastOf(path, oid);
    if EndsWith(path, suffix) { LastOf(path, suffix); }
  }

  lemma LastOf(s: string, suffix: string)
    requires suffix != "" && EndsWith(s, suffix)
    ensures s[|s| - 1] == suffix[|suffix| - 1]
  {
    assert s[|s| - 1] == s[|s| - |suffix|..][|suffix| - 1];
  }

  /** An advertised link leads back to the object it was printed for - same repository, same object,
      same size - exactly when the repository's name keeps clear of the LFS marker. */
  lemma AdvertisedLinkParsesBack(repo: string, oid: string, size: nat)
    requires Accepts(repo) && '?' !in repo && ValidLfsOid(oid) && size < U64_MOD
    ensures Request(Target(repo, oid, size)) == LfsObject(repo, oid, Some(size)) <==> MarkerFree(repo)
  {
    var path, q := "/" + repo + MARKER + oid, SIZE_KEY + Decimal(size);
    assert Target(repo, oid, size) == path + ("?" + q);
    assert '?' !in path;
    RequestSplits(path, q);
    SizeQuery(size);
    assert path[|path| - 64..] == oid;
    ObjectRoute(path, oid, q);
    ObjectPathParses(repo, oid);
  }

  lemma RequestSplits(path: string, q: string)
    requires '?' !in path
    ensures Request(path + ("?" + q)) == RouteGet(path, q)
  {
    UpToSplit(path, '?', q);
    assert (path + ("?" + q))[|path| + 1..] == q;
  }

  lemma ObjectRoute(path: string, oid: string, q: string)
    requires ValidLfsOid(oid) && EndsWith(path, oid) && !Contains(q, "service=git-receive-pack")
    ensures var o := LfsObjectFromPath(path);
            RouteGet(path, q) == if o.Some? then LfsObject(o.value.0, o.value.1, SizeFromQuery(q)) else NotFound
  {
    HexTail(path, oid, "/git-receive-pack");
    HexTail(path, oid, "/info/refs");
  }

  lemma {:induction false} UpToSplit(a: string, c: char, b: string)
    requires c !in a
    ensures UpTo(a + ([c] + b), c) == a
    decreases |a|
  {
    var s := a + ([c] + b);
    if a != "" {
      assert s[1..] == a[1..] + ([c] + b);
      UpToSplit(a[1..], c, b);
    }
  }

  // ---------------------------------------------------------------------------------
  // Rewriting a batch response
  // ---------------------------------------------------------------------------------

  /** JSON as `serde_json` holds it. A number is an integer or something else. */
  datatype Json =
    | Null | Bool(b: bool) | Int(i: int) | Float | Str(s: string)
    | Arr(items: seq<Json>) | Obj(fields: map<string, Json>)

  function Get(j: Json, key: string): Option<Json> {
    if j.Obj? && key in j.fields then Some(j.fields[key]) else None
  }

  /** The object's oid, if it has one that is a string. */
  function OidOf(obj: Json): Option<string> {
    var o := Get(obj, "oid");
    if o.Some? && o.value.Str? then Some(o.value.s) else None
  }

  /** `as_u64`, or 0. */
  function SizeOf(obj: Json): (n: nat)
    ensures n < U64_MOD
  {
    var o := Get(obj, "size");
    if o.Some? && o.value.Int? && 0 <= o.value.i < U64_MOD then o.value.i else 0
  }

  /** The fields of the object's download action, if it has one. */
  function DownloadOf(obj: Json): Option<map<string, Json>> {
    var a := Get(obj, "actions");
    if a.None? then None else
      var d := Get(a.value, "download");
      if d.Some? && d.value.Obj? then Some(d.value.fields) else None
  }

  /** The object with other fields in its download action. */
  function WithDownload(obj: Json, fields: map<string, Json>): Json
    requires DownloadOf(obj).Some?
  {
    Obj(obj.fields["actions" := Obj(obj.fields["actions"].fields["download" := Obj(fields)])])
  }

  function RewriteFields(fields: map<string, Json>, href: string, token: Option<string>): map<string, Json> {
    var linked := fields["href" := Str(href)];
    if token.Some? then linked["header" := Obj(map["Authorization" := Str("Bearer " + token.value)])]
    else linked - {"header"}
  }

  function RewriteObject(obj: Json, base: string, repo: string, token: Option<string>): Json {
    var oid, download := OidOf(obj), DownloadOf(obj);
    if oid.None? || download.None? then obj
    else WithDownload(obj, RewriteFields(download.value, base + Target(repo, oid.value, SizeOf(obj)), token))
  }

  function RewriteObjects(objs: seq<Json>, base: string, repo: string, token: Option<string>): (r: seq<Json>)
    ensures |r| == |objs| && forall i :: 0 <= i < |objs| ==> r[i] == RewriteObject(objs[i], base, repo, token)
  {
    seq(|objs|, i requires 0 <= i < |objs| => RewriteObject(objs[i], base, repo, token))
  }

  /** The whole response: only the entries of its `objects` array are touched. */
  function RewriteBatch(json: Json, base: string, repo: string, token: Option<string>): Json {
    var objs := Get(json, "objects");
    if objs.None? || !objs.value.Arr? then json
    else Obj(json.fields["objects" := Arr(RewriteObjects(objs.value.items, base, repo, token))])
  }

  // What an object of the response must become, field by field.

  predicate IsObject(j: Json, key: string) { j.Obj? && key in j.fields && j.fields[key].Obj? }

  /** It has a string `oid` and a download action. */
  predicate Downloadable(obj: Json) {
    && obj.Obj? && "oid" in obj.fields && obj.fields["oid"].Str?
    && IsObject(obj, "actions") && IsObject(obj.fields["actions"], "download")
  }

  /** Two JSON objects differ at most in `key`. */
  ghost predicate SameBut(a: Json, b: Json, key: string) {
    a.Obj? && b.Obj? && a.fields.Keys == b.fields.Keys
    && forall k :: k in a.fields && k != key ==> b.fields[k] == a.fields[k]
  }

  /** The proxy's link for the object, and the proxy's token or no header at all, in a download action
      that is otherwise what it was. */
  ghost predicate Relinked(before: map<string, Json>, after: map<string, Json>, link: string, token: Option<string>) {
    && "href" in after && after["href"] == Str(link)
    && (if token.Some? then "header" in after && after["header"] == Obj(map["Authorization" := Str("Bearer " + token.value)])
        else "header" !in after)
    && forall k :: k != "href" && k != "header" ==>
         (k in after <==> k in before) && (k in before ==> after[k] == before[k])
  }

  ghost predicate Rewritten(before: Json, after: Json, base: string, repo: string, token: Option<string>) {
    if !Downloadable(before) then after == before
    else
      && SameBut(before, after, "actions") && IsObject(after, "actions")
      && SameBut(before.fields["actions"], after.fields["actions"], "download")
      && IsObject(after.fields["actions"], "download")
      && var size := if "size" in before.fields && before.fields["size"].Int?
                        && 0 <= before.fields["size"].i < 0x1_0000_0000_0000_0000
                     then before.fields["size"].i else 0;
         var link := base + "/" + repo + "/info/lfs/objects/" + before.fields["oid"].s + "?size=" + Decimal(size);
         Relinked(before.fields["actions"].fields["download"].fields,
                  after.fields["actions"].fields["download"].fields, link, token)
  }

  lemma RewriteObjectRewrites(obj: Json, base: string, repo: string, token: Option<string>)
    ensures Rewritten(obj, RewriteObject(obj, base, repo, token), base, repo, token)
  {
    if Downloadable(obj) {
      var oid := obj.fields["oid"].s;
      var link := base + "/" + repo + "/info/lfs/objects/" + oid + "?size=" + Decimal(SizeOf(obj));
      assert base + Target(repo, oid, SizeOf(obj)) == link;
    }
  }

  /** The response has an array of objects. */
  predicate HasObjects(json: Json) { json.Obj? && "objects" in json.fields && json.fields["objects"].Arr? }

  /** The loop over the objects, editing each in turn. */
  method RewriteDownloadHrefs(json: Json, base: string, repo: string, token: Option<string>) returns (r: Json)
    ensures !HasObjects(json) ==> r == json
    ensures HasObjects(json) ==>
              && SameBut(json, r, "objects") && HasObjects(r)
              && |r.fields["objects"].items| == |json.fields["objects"].items|
              && forall i :: 0 <= i < |json.fields["objects"].items| ==>
                   Rewritten(json.fields["objects"].items[i], r.fields["objects"].items[i], base, repo, token)
    ensures r == RewriteBatch(json, base, repo, token)
  {
    var objs := Get(json, "objects");
    if objs.None? || !objs.value.Arr? { return json; }
    var items := objs.value.items;
    var i := 0;
    while i < |items|
      invariant 0 <= i <= |items| == |objs.value.items|
      invariant forall k :: 0 <= k < i ==> items[k] == RewriteObject(objs.value.items[k], base, repo, token)
      invariant forall k :: i <= k < |items| ==> items[k] == objs.value.items[k]
    {
      var oid, download := OidOf(items[i]), DownloadOf(items[i]);
      if oid.Some? && download.Some? {
        var fields := download.value["href" := Str(base + Target(repo, oid.value, SizeOf(items[i])))];
        if token.Some? {
          fields := fields["header" := Obj(map["Authorization" := Str("Bearer " + token.value)])];
        } else {
          fields := fields - {"header"};
        }
        items := items[i := WithDownload(items[i], fields)];
      }
      i := i + 1;
    }
    assert items == RewriteObjects(objs.value.items, base, repo, token);
    forall k | 0 <= k < |items| ensures Rewritten(objs.value.items[k], items[k], base, repo, token) {
      RewriteObjectRewrites(objs.value.items[k], base, repo, token);
    }
    r := Obj(json.fields["objects" := Arr(items)]);
  }

  lemma RewrittenObject(obj: Json, base: string, repo: string, token: Option<string>)
    requires OidOf(obj).Some? && DownloadOf(obj).Some?
    ensures var r := RewriteObject(obj, base, repo, token);
            && OidOf(r) == OidOf(obj) && SizeOf(r) == SizeOf(obj)
            && DownloadOf(r) == Some(RewriteFields(DownloadOf(obj).value,
                                       base + Target(repo, OidOf(obj).value, SizeOf(obj)), token))
            && forall fields :: WithDownload(r, fields) == WithDownload(obj, fields)
  {
    var r := RewriteObject(obj, base, repo, token);
    forall fields ensures WithDownload(r, fields) == WithDownload(obj, fields) {
      assert r.fields["actions"].fields["download" := Obj(fields)] == obj.fields["actions"].fields["download" := Obj(fields)];
      assert WithDownload(r, fields).fields == WithDownload(obj, fields).fields;
    }
  }

  /** Rewriting a rewritten response changes nothing. */
  lemma RewriteIsIdempotent(json: Json, base: string, repo: string, token: Option<string>)
    ensures var once := RewriteBatch(json, base, repo, token);
            RewriteBatch(once, base, repo, token) == once
  {
    var objs := Get(json, "objects");
    if objs.Some? && objs.value.Arr? {
      var a := RewriteObjects(objs.value.items, base, repo, token);
      var b := RewriteObjects(a, base, repo, token);
      forall i | 0 <= i < |a| ensures b[i] == a[i] {
        RewriteObjectTwice(objs.value.items[i], base, repo, token);
      }
      assert b == a;
      var once := RewriteBatch(json, base, repo, token);
      assert RewriteBatch(once, base, repo, token).fields == once.fields;
    }
  }

  lemma RewriteObjectTwice(obj: Json, base: string, repo: string, token: Option<string>)
    ensures var r := RewriteObject(obj, base, repo, token);
            RewriteObject(r, base, repo, token) == r
  {
    if OidOf(obj).Some? && DownloadOf(obj).Some? {
      RewrittenObject(obj, base, repo, token);
      var href := base + Target(repo, OidOf(obj).value, SizeOf(obj));
      var f := RewriteFields(DownloadOf(obj).value, href, token);
      assert RewriteFields(f, href, token) == f;
    }
  }

  /** The object with the two rewritten fields taken out of its download action. */
  function Erase(obj: Json): Json {
    if OidOf(obj).Some? && DownloadOf(obj).Some? then WithDownload(obj, DownloadOf(obj).value - {"href", "header"})
    else obj
  }

  /** What an object of the response carries after the rewrite: everything it had before except
      `href` and `header` of its download action; a link back to this proxy for its oid and size;
      and the proxy's own token, or no header at all - never upstream's. */
  lemma RewriteTouchesOnlyLinkAndHeader(obj: Json, base: string, repo: string, token: Option<string>)
    ensures var r := RewriteObject(obj, base, repo, token);
            && Erase(r) == Erase(obj)
            && (OidOf(obj).None? || DownloadOf(obj).None? ==> r == obj)
            && (OidOf(obj).Some? && DownloadOf(obj).Some? ==>
                  && DownloadOf(r).Some?
                  && var f := DownloadOf(r).value;
                     && "href" in f && f["href"] == Str(base + Target(repo, OidOf(obj).value, SizeOf(obj)))
                     && ("header" in f <==> token.Some?)
                     && (token.Some? ==> f["header"] == Obj(map["Authorization" := Str("Bearer " + token.value)])))
  {
    if OidOf(obj).Some? && DownloadOf(obj).Some? {
      RewrittenObject(obj, base, repo, token);
      var f := DownloadOf(obj).value;
      var g := RewriteFields(f, base + Target(repo, OidOf(obj).value, SizeOf(obj)), token);
      assert g - {"href", "header"} == f - {"href", "header"};
    }
  }
}
