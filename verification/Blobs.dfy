/** The object half of the startup scan (src/evict.rs: `find_lfs_blobs`) and the two halves together,
    as the index takes them. */
module Blobs {
  import opened Common
  import opened Index
  import opened Scan
  import Names

  const INCOMING_DIR: string := ".incoming"

  /** The cache key of an object: the store, the shard, the object id. */
  function Key(shard: string, oid: string): string {
    Names.Join([Names.LFS_OBJECTS_DIR, shard, oid])
  }

  function ObjectEntry(shard: string, e: Entry): Scanned
    requires e.node.File?
  {
    Scanned(Key(shard, e.name), e.node.len, if e.node.mtime.Some? then e.node.mtime.value else EPOCH)
  }

  /** The files of one shard, in the order they are listed. */
  function ShardObjects(shard: string, es: seq<Entry>): seq<Scanned> {
    if es == [] then []
    else
      var k := |es| - 1;
      ShardObjects(shard, es[..k]) + (if es[k].node.File? then [ObjectEntry(shard, es[k])] else [])
  }

  predicate IsShard(e: Entry) { e.node.Dir? && e.name != INCOMING_DIR }

  function ShardOf(e: Entry): seq<Scanned> {
    if IsShard(e) && e.node.readable then ShardObjects(e.name, e.node.entries) else []
  }

  function StoreObjects(shards: seq<Entry>): seq<Scanned> {
    if shards == [] then [] else StoreObjects(shards[..|shards| - 1]) + ShardOf(shards[|shards| - 1])
  }

  /** The listing of the object store, empty if there is none. */
  function StoreListing(root: Node): seq<Entry>
    requires root.Dir?
  {
    var store := Lookup(root.entries, Names.LFS_OBJECTS_DIR);
    if store.Some? && store.value.Dir? && store.value.readable then store.value.entries else []
  }

  /** The two nested listings. */
  method FindLfsBlobs(root: Node) returns (out: seq<Scanned>)
    requires root.Dir?
    ensures out == StoreObjects(StoreListing(root))
  {
    out := [];
    var shards := StoreListing(root);
    var i := 0;
    while i < |shards|
      invariant 0 <= i <= |shards|
      invariant out == StoreObjects(shards[..i])
    {
      assert shards[..i + 1][..i] == shards[..i];
      if IsShard(shards[i]) && shards[i].node.readable {
        var objects := shards[i].node.entries;
        ghost var before := out;
        var j := 0;
        while j < |objects|
          invariant 0 <= j <= |objects|
          invariant out == before + ShardObjects(shards[i].name, objects[..j])
        {
          assert objects[..j + 1][..j] == objects[..j];
          if objects[j].node.File? {
            out := out + [ObjectEntry(shards[i].name, objects[j])];
          }
          j := j + 1;
        }
        assert objects[..j] == objects;
      }
      i := i + 1;
    }
    assert shards[..i] == shards;
  }

  // ---------------------------------------------------------------------------------
  // Which objects those are
  // ---------------------------------------------------------------------------------

  ghost predicate Listable(n: Option<Node>) { n.Some? && n.value.Dir? && n.value.readable }

  /** `e` stands for the file `oid` in the directory `shard` of the store. */
  ghost predicate Stored(root: Node, shard: string, oid: string, e: Scanned) {
    && shard != ".incoming"
    && Listable(NodeAt(root, [".__lfs__"])) && Listable(NodeAt(root, [".__lfs__", shard]))
    && var f := NodeAt(root, [".__lfs__", shard, oid]);
       && f.Some? && f.value.File?
       && e.name == ".__lfs__" + "/" + shard + "/" + oid && e.size == f.value.len
       && e.mtime == match f.value.mtime { case Some(t) => t case None => 0 }
  }

  /** The same, listing by listing. */
  lemma StoredInListing(root: Node, shard: string, oid: string, e: Scanned)
    requires root.Dir?
    ensures Stored(root, shard, oid, e) <==>
              && shard != INCOMING_DIR
              && var d := Lookup(StoreListing(root), shard);
                 && Listable(d)
                 && var f := Lookup(d.value.entries, oid);
                    f.Some? && f.value.File? && e == ObjectEntry(shard, Entry(oid, f.value))
  {
    var a, b, c := [".__lfs__"], [".__lfs__", shard], [".__lfs__", shard, oid];
    assert a[1..] == [] && b[1..] == [shard] && [shard][1..] == [];
    assert c[1..] == [shard, oid] && [shard, oid][1..] == [oid] && [oid][1..] == [];
    var store := Lookup(root.entries, Names.LFS_OBJECTS_DIR);
    assert NodeAt(root, a) == store;
    if Listable(store) {
      assert NodeAt(root, b) == NodeAt(store.value, [shard]) == Lookup(StoreListing(root), shard);
      var d := Lookup(StoreListing(root), shard);
      if Listable(d) {
        assert NodeAt(root, c) == NodeAt(store.value, [shard, oid]) == NodeAt(d.value, [oid]) == Lookup(d.value.entries, oid);
        var f := Lookup(d.value.entries, oid);
        if f.Some? && f.value.File? { StoredExactly(shard, oid, f.value, e); }
      }
    }
  }

  lemma StoredExactly(shard: string, oid: string, f: Node, e: Scanned)
    requires f.File?
    ensures e == ObjectEntry(shard, Entry(oid, f)) <==>
              && e.name == ".__lfs__" + "/" + shard + "/" + oid && e.size == f.len
              && e.mtime == match f.mtime { case Some(t) => t case None => 0 }
  {
    KeyText(shard, oid);
  }

  lemma KeyText(shard: string, oid: string)
    ensures Key(shard, oid) == ".__lfs__" + "/" + shard + "/" + oid
  {
    var cs := [Names.LFS_OBJECTS_DIR, shard, oid];
    assert cs[1..] == [shard, oid] && cs[1..][1..] == [oid];
    assert Names.Join(cs[1..]) == shard + "/" + oid;
    assert Names.LFS_OBJECTS_DIR + "/" + (shard + "/" + oid) == ".__lfs__" + "/" + shard + "/" + oid;
  }

  /** The scan names an object as the requests for it do. */
  lemma KeyIsObjectKey(oid: string)
    requires Names.ValidLfsOid(oid)
    ensures Key(oid[..2], oid) == Names.LfsObjectKey(oid)
  {
    KeyText(oid[..2], oid);
  }

  lemma {:induction false} LookupIs(es: seq<Entry>, name: string, n: Node)
    requires WellFormedEntries(es)
    ensures Lookup(es, name) == Some(n) <==> Entry(name, n) in es
    decreases |es|
  {
    if es != [] {
      LookupIs(es[1..], name, n);
      assert es == [es[0]] + es[1..];
    }
  }

  lemma {:induction false} ShardObjectsAre(shard: string, es: seq<Entry>, e: Scanned)
    ensures e in ShardObjects(shard, es) <==> exists f :: f in es && f.node.File? && e == ObjectEntry(shard, f)
    decreases |es|
  {
    if es != [] {
      var k := |es| - 1;
      assert es == es[..k] + [es[k]];
      ShardObjectsAre(shard, es[..k], e);
    }
  }

  lemma {:induction false} StoreObjectsAre(shards: seq<Entry>, e: Scanned)
    ensures e in StoreObjects(shards) <==> exists d :: d in shards && e in ShardOf(d)
    decreases |shards|
  {
    if shards != [] {
      var k := |shards| - 1;
      assert shards == shards[..k] + [shards[k]];
      StoreObjectsAre(shards[..k], e);
    }
  }

  /** The scan lists exactly the stored objects. */
  lemma ScanFindsStoredObjects(root: Node, e: Scanned)
    requires root.Dir? && WellFormed(root)
    ensures e in StoreObjects(StoreListing(root)) <==> exists shard, oid :: Stored(root, shard, oid, e)
  {
    var shards := StoreListing(root);
    StoreIsWellFormed(root);
    StoreObjectsAre(shards, e);
    if d :| d in shards && e in ShardOf(d) {
      LookupIs(shards, d.name, d.node);
      EntryWellFormed(shards, d);
      ShardObjectsAre(d.name, d.node.entries, e);
      var f :| f in d.node.entries && f.node.File? && e == ObjectEntry(d.name, f);
      LookupIs(d.node.entries, f.name, f.node);
      StoredInListing(root, d.name, f.name, e);
    }
    if shard, oid :| Stored(root, shard, oid, e) {
      StoredInListing(root, shard, oid, e);
      var d := Entry(shard, Lookup(shards, shard).value);
      LookupIs(shards, shard, d.node);
      EntryWellFormed(shards, d);
      var f := Entry(oid, Lookup(d.node.entries, oid).value);
      LookupIs(d.node.entries, oid, f.node);
      ShardObjectsAre(shard, d.node.entries, e);
      assert d in shards && e in ShardOf(d);
    }
  }

  lemma StoreIsWellFormed(root: Node)
    requires root.Dir? && WellFormed(root)
    ensures WellFormedEntries(StoreListing(root))
  {
    if Lookup(root.entries, Names.LFS_OBJECTS_DIR).Some? { LookupWellFormed(root.entries, Names.LFS_OBJECTS_DIR); }
  }

  lemma {:induction false} EntryWellFormed(es: seq<Entry>, e: Entry)
    requires WellFormedEntries(es) && e in es
    ensures WellFormed(e.node) && Names.SlashFree(e.name)
    decreases |es|
  {
    if e != es[0] {
      assert es == [es[0]] + es[1..];
      EntryWellFormed(es[1..], e);
    }
  }

  // ---------------------------------------------------------------------------------
  // Their names differ
  // ---------------------------------------------------------------------------------

  ghost predicate DistinctEntries(es: seq<Entry>) {
    forall i, j :: 0 <= i < j < |es| ==> es[i].name != es[j].name
  }

  lemma {:induction false} WellFormedDistinct(es: seq<Entry>)
    requires WellFormedEntries(es)
    ensures DistinctEntries(es)
    decreases |es|
  {
    if es != [] {
      WellFormedDistinct(es[1..]);
      forall j | 0 < j < |es| ensures es[j].name != es[0].name {
        assert es[1..][j - 1] == es[j];
        LookupIs(es[1..], es[j].name, es[j].node);
      }
      forall i, j | 0 < i < j < |es| ensures es[i].name != es[j].name {
        assert es[1..][i - 1] == es[i] && es[1..][j - 1] == es[j];
      }
    }
  }

  lemma DistinctAppend(a: seq<Scanned>, b: seq<Scanned>)
    requires DistinctNames(a) && DistinctNames(b)
    requires forall x, y :: x in a && y in b ==> x.name != y.name
    ensures DistinctNames(a + b)
  {
    forall i, j | 0 <= i < j < |a + b| ensures (a + b)[i].name != (a + b)[j].name {
      if i < |a| <= j { assert a[i] in a && b[j - |a|] in b; }
    }
  }

  /** A key determines its shard and its object. */
  lemma KeySplits(shard: string, oid: string)
    requires Names.SlashFree(shard) && Names.SlashFree(oid)
    ensures Names.Split(Key(shard, oid)) == [Names.LFS_OBJECTS_DIR, shard, oid]
  {
    Names.SplitOfJoin([Names.LFS_OBJECTS_DIR, shard, oid]);
  }

  ghost predicate AllSlashFreeEntries(es: seq<Entry>) { forall e :: e in es ==> Names.SlashFree(e.name) }

  lemma {:induction false} ShardObjectsDiffer(shard: string, es: seq<Entry>)
    requires Names.SlashFree(shard) && DistinctEntries(es) && AllSlashFreeEntries(es)
    ensures DistinctNames(ShardObjects(shard, es))
    decreases |es|
  {
    if es != [] {
      var k := |es| - 1;
      assert es == es[..k] + [es[k]];
      ShardObjectsDiffer(shard, es[..k]);
      if es[k].node.File? {
        var last := ObjectEntry(shard, es[k]);
        forall x | x in ShardObjects(shard, es[..k]) ensures x.name != last.name {
          ShardObjectsAre(shard, es[..k], x);
          var f :| f in es[..k] && f.node.File? && x == ObjectEntry(shard, f);
          KeySplits(shard, f.name);
          KeySplits(shard, es[k].name);
        }
        DistinctAppend(ShardObjects(shard, es[..k]), [last]);
      }
    }
  }

  /** Every object of a shard carries the shard in its name. */
  lemma ShardNamed(d: Entry, e: Scanned)
    requires Names.SlashFree(d.name) && WellFormed(d.node) && e in ShardOf(d)
    ensures |Names.Split(e.name)| == 3
    ensures Names.Split(e.name)[0] == Names.LFS_OBJECTS_DIR && Names.Split(e.name)[1] == d.name
  {
    ShardObjectsAre(d.name, d.node.entries, e);
    var f :| f in d.node.entries && f.node.File? && e == ObjectEntry(d.name, f);
    EntryWellFormed(d.node.entries, f);
    KeySplits(d.name, f.name);
  }

  lemma ShardDiffers(d: Entry)
    requires Names.SlashFree(d.name) && WellFormed(d.node)
    ensures DistinctNames(ShardOf(d))
  {
    if IsShard(d) {
      WellFormedDistinct(d.node.entries);
      forall e | e in d.node.entries ensures Names.SlashFree(e.name) { EntryWellFormed(d.node.entries, e); }
      ShardObjectsDiffer(d.name, d.node.entries);
    }
  }

  ghost predicate AllWellFormed(es: seq<Entry>) {
    forall e :: e in es ==> WellFormed(e.node) && Names.SlashFree(e.name)
  }

  lemma {:induction false} StoreObjectsDiffer(shards: seq<Entry>)
    requires DistinctEntries(shards) && AllWellFormed(shards)
    ensures DistinctNames(StoreObjects(shards))
    decreases |shards|
  {
    if shards != [] {
      var k := |shards| - 1;
      assert shards == shards[..k] + [shards[k]];
      StoreObjectsDiffer(shards[..k]);
      ShardDiffers(shards[k]);
      forall x, y | x in StoreObjects(shards[..k]) && y in ShardOf(shards[k]) ensures x.name != y.name {
        StoreObjectsAre(shards[..k], x);
        var d :| d in shards[..k] && x in ShardOf(d);
        ShardNamed(d, x);
        ShardNamed(shards[k], y);
      }
      DistinctAppend(StoreObjects(shards[..k]), ShardOf(shards[k]));
    }
  }

  lemma StoredObjectsDiffer(root: Node)
    requires root.Dir? && WellFormed(root)
    ensures DistinctNames(StoreObjects(StoreListing(root)))
  {
    var shards := StoreListing(root);
    StoreIsWellFormed(root);
    WellFormedDistinct(shards);
    forall e | e in shards ensures WellFormed(e.node) && Names.SlashFree(e.name) { EntryWellFormed(shards, e); }
    StoreObjectsDiffer(shards);
  }

  // ---------------------------------------------------------------------------------
  // Both halves
  // ---------------------------------------------------------------------------------

  /** No mirror is named like an object. */
  lemma MirrorIsNoObject(root: Node, p: Path, m: Node, e: Scanned)
    requires root.Dir? && WellFormed(root)
    requires Found(p, m) in Mirrors([], root) && e in StoreObjects(StoreListing(root))
    ensures Names.Join(p) != e.name
  {
    ScanFindsOutermostMirrors(root, p, m);
    PathComponents(root, p);
    Names.SplitOfJoin(p);
    assert !Reserved(p[0]);
    var shards := StoreListing(root);
    StoreIsWellFormed(root);
    StoreObjectsAre(shards, e);
    var d :| d in shards && e in ShardOf(d);
    EntryWellFormed(shards, d);
    ShardNamed(d, e);
  }

  /** Everything the startup scan hands to the index: the mirrors `find_mirrors` reports, each at its
      size and newest mtime, then the stored objects; no name twice. */
  method ScanAll(root: Node) returns (entries: seq<Scanned>, ghost found: seq<Found>)
    requires root.Dir? && WellFormed(root)
    ensures multiset(found) == Mirrors([], root)
    ensures entries == seq(|found|, i requires 0 <= i < |found| => MirrorEntry(found[i])) + StoreObjects(StoreListing(root))
    ensures DistinctNames(entries)
  {
    var mirrors;
    mirrors, found := ScanMirrors(root);
    var objects := FindLfsBlobs(root);
    StoredObjectsDiffer(root);
    forall x, y | x in mirrors && y in objects ensures x.name != y.name {
      var i :| 0 <= i < |mirrors| && mirrors[i] == x;
      assert found[i] in multiset(found);
      MirrorIsNoObject(root, found[i].path, found[i].node, y);
    }
    DistinctAppend(mirrors, objects);
    entries := mirrors + objects;
  }
}
