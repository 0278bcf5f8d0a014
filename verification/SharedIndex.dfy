/** The object the server shares between request threads and the evictor: the mutex-guarded
    state, the two gauges, and the wake-up permit. Each method is one critical section plus
    its `notify_one`, updates the fields in place, and is proved against `Index`. */
module SharedIndex {
  import opened Common
  import opened Index
  import Scan
  import Blobs

  class CacheIndex {
    const maxBytes: u64
    var state: Inner
    var gaugeBytes: u64
    var gaugeCount: nat
    /** The one permit `Notify` can store. */
    var permit: bool

    /** Balanced books, and gauges that show them. */
    ghost predicate Valid() reads this {
      state.Valid() && gaugeBytes == state.total && gaugeCount == |state.order|
    }

    constructor (entries: seq<Scanned>, maxBytes: u64)
      requires DistinctNames(entries)
      ensures Valid() && this.maxBytes == maxBytes
      ensures state == PutAll(EmptyInner(), SortByMtime(entries))
      ensures permit == (state.total > maxBytes)
    {
      var sorted := SortByMtime(entries);
      var cache := EmptyInner();
      var i := 0;
      while i < |sorted|
        invariant 0 <= i <= |sorted|
        invariant cache == PutAll(EmptyInner(), sorted[..i])
      {
        PutNext(sorted, i);
        cache := cache.(total := WrappingAdd(cache.total, sorted[i].size));
        cache := cache.(order := Promote(cache.order, sorted[i].name),
                        sizes := cache.sizes[sorted[i].name := sorted[i].size]);
        i := i + 1;
      }
      assert sorted[..i] == sorted;
      SortKeepsDistinctNames(entries, sorted);
      StartupIndex(sorted);
      this.maxBytes := maxBytes;
      state := cache;
      gaugeBytes, gaugeCount := cache.total, |cache.order|;
      permit := cache.total > maxBytes;
    }

    method Touch(name: string)
      requires Valid()
      modifies this`state
      ensures Valid() && state == Index.Touch(old(state), name)
    {
      TouchKeepsValid(state, name);
      if name in state.sizes {
        TouchKeepsLength(state.order, name);
        state := state.(order := Promote(state.order, name));
      }
    }

    method RecordBlob(key: string, size: u64)
      requires Valid()
      modifies this
      ensures Valid() && state == Index.RecordBlob(old(state), key, size) && permit
    {
      RecordBlobKeepsValid(state, key, size);
      var replaced := if key in state.sizes then state.sizes[key] else 0;
      state := state.(order := Promote(state.order, key), sizes := state.sizes[key := size]);
      state := state.(total := WrappingAdd(WrappingSub(state.total, replaced), size));
      gaugeBytes, gaugeCount := state.total, |state.order|;
      permit := true;
    }

    method MarkChanged(name: string)
      requires Valid()
      modifies this
      ensures Valid() && state == Index.MarkChanged(old(state), name) && permit
    {
      MarkChangedKeepsValid(state, name);
      if name !in state.sizes {
        state := state.(sizes := state.sizes[name := 0]);
      }
      state := state.(order := Promote(state.order, name));
      state := state.(dirty := state.dirty + {name});
      gaugeBytes, gaugeCount := state.total, |state.order|;
      permit := true;
    }

    method TakeDirty() returns (taken: set<string>)
      requires Valid()
      modifies this`state
      ensures Valid() && taken == old(state.dirty) && state == Index.TakeDirty(old(state))
    {
      taken := state.dirty;
      state := state.(dirty := {});
    }

    method SetSize(name: string, size: u64)
      requires Valid()
      modifies this`state, this`gaugeBytes, this`gaugeCount
      ensures Valid() && state == Index.SetSize(old(state), name, size)
    {
      SetSizeKeepsValid(state, name, size);
      if name !in state.sizes { return; }
      state := state.(total := WrappingAdd(WrappingSub(state.total, state.sizes[name]), size));
      state := state.(sizes := state.sizes[name := size]);
      gaugeBytes, gaugeCount := state.total, |state.order|;
    }

    method TakeVictims() returns (victims: seq<string>)
      requires Valid()
      modifies this`state, this`gaugeBytes, this`gaugeCount
      ensures Valid() && (state, victims) == Index.TakeVictims(old(state), maxBytes)
    {
      victims := [];
      var inner := state;
      while inner.total > maxBytes && inner.order != []
        invariant inner.Valid()
        invariant Index.TakeVictims(old(state), maxBytes).0 == Index.TakeVictims(inner, maxBytes).0
        invariant Index.TakeVictims(old(state), maxBytes).1 == victims + Index.TakeVictims(inner, maxBytes).1
        decreases |inner.order|
      {
        var k := |inner.order| - 1;
        var v := inner.order[k];
        VictimStep(inner, maxBytes, victims);
        inner := Inner(inner.order[..k], inner.sizes - {v}, inner.dirty,
                       WrappingSub(inner.total, inner.sizes[v]));
        victims := victims + [v];
      }
      assert victims + [] == victims;
      state := inner;
      gaugeBytes, gaugeCount := state.total, |state.order|;
    }

    method ReconcileMissing(missing: seq<string>)
      requires Valid()
      modifies this`state, this`gaugeBytes, this`gaugeCount
      ensures Valid() && state == DropMissing(old(state), missing)
    {
      var inner := state;
      var i := 0;
      assert missing[0..] == missing;
      while i < |missing|
        invariant 0 <= i <= |missing|
        invariant inner.Valid()
        invariant DropMissing(old(state), missing) == DropMissing(inner, missing[i..])
      {
        var n := missing[i];
        assert missing[i..][1..] == missing[i + 1..];
        if n !in inner.dirty && n in inner.sizes {
          PopKeepsValid(inner, n);
          inner := inner.(order := Without(inner.order, n), sizes := inner.sizes - {n},
                          total := WrappingSub(inner.total, inner.sizes[n]));
        }
        i := i + 1;
      }
      state := inner;
      gaugeBytes, gaugeCount := state.total, |state.order|;
    }
  }

  /** `CacheIndex::new` from the directory tree: one scan, then the index, with every mirror and
      object it found tracked at its size and nothing else. */
  method OpenIndex(root: Scan.Node, maxBytes: u64) returns (index: CacheIndex, ghost entries: seq<Scanned>)
    requires root.Dir? && Scan.WellFormed(root)
    ensures fresh(index) && index.Valid() && index.maxBytes == maxBytes && index.state.dirty == {}
    ensures forall e :: e in entries <==>
              || (exists p, m :: Scan.Found(p, m) in Scan.Mirrors([], root) && e == Scan.MirrorEntry(Scan.Found(p, m)))
              || (exists shard, oid :: Blobs.Stored(root, shard, oid, e))
    ensures forall e :: e in entries ==> e.name in index.state.sizes && index.state.sizes[e.name] == e.size
    ensures forall n :: n in index.state.sizes ==> exists e :: e in entries && e.name == n
    ensures index.permit == (index.state.total > maxBytes)
  {
    var es, found := Blobs.ScanAll(root);
    index := new CacheIndex(es, maxBytes);
    entries := es;
    EntriesAre(root, es, found);
    var sorted := SortByMtime(es);
    SortKeepsDistinctNames(es, sorted);
    StartupIndex(sorted);
    SameMembers(es, sorted);
    forall n | n in index.state.sizes ensures exists e :: e in entries && e.name == n {
      assert n in NamesFromLast(sorted);
      var i :| 0 <= i < |sorted| && NamesFromLast(sorted)[i] == n;
      assert sorted[|sorted| - 1 - i] in sorted;
    }
  }

  lemma SameMembers(es: seq<Scanned>, sorted: seq<Scanned>)
    requires multiset(sorted) == multiset(es)
    ensures forall e :: e in sorted <==> e in es
  {
    forall e ensures e in sorted <==> e in es {
      assert e in sorted <==> e in multiset(sorted);
      assert e in es <==> e in multiset(es);
    }
  }

  lemma EntriesAre(root: Scan.Node, es: seq<Scanned>, found: seq<Scan.Found>)
    requires root.Dir? && Scan.WellFormed(root) && multiset(found) == Scan.Mirrors([], root)
    requires es == seq(|found|, i requires 0 <= i < |found| => Scan.MirrorEntry(found[i]))
                   + Blobs.StoreObjects(Blobs.StoreListing(root))
    ensures forall e :: e in es <==>
              || (exists p, m :: Scan.Found(p, m) in Scan.Mirrors([], root) && e == Scan.MirrorEntry(Scan.Found(p, m)))
              || (exists shard, oid :: Blobs.Stored(root, shard, oid, e))
  {
    var mirrors := seq(|found|, i requires 0 <= i < |found| => Scan.MirrorEntry(found[i]));
    forall e ensures e in mirrors <==>
      exists p, m :: Scan.Found(p, m) in Scan.Mirrors([], root) && e == Scan.MirrorEntry(Scan.Found(p, m))
    {
      if e in mirrors {
        var i :| 0 <= i < |mirrors| && mirrors[i] == e;
        assert Scan.Found(found[i].path, found[i].node) in multiset(found);
      }
      if p, m :| Scan.Found(p, m) in Scan.Mirrors([], root) && e == Scan.MirrorEntry(Scan.Found(p, m)) {
        var i :| 0 <= i < |found| && found[i] == Scan.Found(p, m);
        assert mirrors[i] == e;
      }
    }
    forall e { Blobs.ScanFindsStoredObjects(root, e); }
  }
}
