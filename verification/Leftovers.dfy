/** Runs of `Mirror` in which a file-system call outlives the request that made it, and what comes of
    them. All of them are about one name, with one request at a time. */
module Leftovers {
  import opened Common
  import opened Mirror

  // ---------------------------------------------------------------------------------
  // Scenes
  // ---------------------------------------------------------------------------------

  /** What matters of a state: the time, the stamp, what is in place, and the renames left behind. */
  datatype Scene = Scene(clock: Time, last: Option<Time>, mirror: Option<Body>, staging: Option<Body>, renames: nat)

  ghost predicate Holds(dirs: map<string, Dir>, n: string, body: Option<Body>) {
    if body.None? then n !in dirs else n in dirs && dirs[n].body == body.value
  }

  ghost predicate Scenery(s: State, n: string, c: Scene) {
    && s.clock == c.clock && Holds(s.mirrors, n, c.mirror) && Holds(s.staging, n, c.staging)
    && s.leftover[LateRename(n)] == c.renames
    && s.slots == map[n := 0] && s.evict == EvictIdle && s.trash == {}
  }

  /** Nobody is there. */
  ghost predicate Empty(s: State, n: string, c: Scene) {
    Scenery(s, n, c) && s.threads == map[] && s.cells == map[0 := Cell(Free, c.last)]
  }

  /** Request 1 is there, past its lock. */
  ghost predicate Played(s: State, n: string, c: Scene, started: Time, pc: Pc) {
    && Scenery(s, n, c) && s.threads == map[1 := Thread(n, true, 0, started, pc)]
    && s.cells == map[0 := Cell(Request(1), c.last)]
  }

  /** Some run from an empty cache leads to `s`. */
  ghost predicate Occurs(ttl: Time, s: State) { Reachable(ttl, EmptyCache(), s) }

  lemma Then(ttl: Time, s: State, step: Step) returns (r: State)
    requires Occurs(ttl, s) && Enabled(ttl, s, step)
    ensures r == Next(ttl, s, step) && Occurs(ttl, r)
  {
    r := OneMore(ttl, EmptyCache(), s, step);
  }

  // ---------------------------------------------------------------------------------
  // From scene to scene
  // ---------------------------------------------------------------------------------

  /** The first request, as far as its stamp. */
  lemma First(ttl: Time, n: string) returns (r: State)
    ensures Occurs(ttl, r) && Played(r, n, Scene(0, None, None, None, 0), 0, Stamped) && r.leftover == multiset{}
  {
    var s := EmptyCache();
    assert After(ttl, s, []) == Reached(s);
    r := Then(ttl, s, Call(1, n, true));
    r := Then(ttl, r, GetSlot(1, 0));
    r := Then(ttl, r, Lock(1));
    r := Then(ttl, r, Stamp(1));
  }

  /** A later one. */
  lemma Enter(ttl: Time, s: State, n: string, c: Scene) returns (r: State)
    requires Occurs(ttl, s) && Empty(s, n, c)
    ensures Occurs(ttl, r) && Played(r, n, c, c.clock, Stamped) && r.leftover == s.leftover && r.inodes == s.inodes
  {
    r := Queue(ttl, s, n, c);
    r := Then(ttl, r, Lock(1));
    r := Then(ttl, r, Stamp(1));
  }

  lemma Queue(ttl: Time, s: State, n: string, c: Scene) returns (r: State)
    requires Occurs(ttl, s) && Empty(s, n, c)
    ensures Occurs(ttl, r) && r == s.(threads := map[1 := Thread(n, true, 0, 0, Queued)])
  {
    r := Arrive(ttl, s, n, c);
    r := Then(ttl, r, GetSlot(1, 7));
  }

  lemma Arrive(ttl: Time, s: State, n: string, c: Scene) returns (r: State)
    requires Occurs(ttl, s) && Empty(s, n, c)
    ensures Occurs(ttl, r) && r == s.(threads := map[1 := Thread(n, true, 0, 0, Called)])
  {
    r := Then(ttl, s, Call(1, n, true));
  }

  lemma Decide(ttl: Time, s: State, n: string, c: Scene) returns (r: State)
    requires Occurs(ttl, s) && Played(s, n, c, c.clock, Stamped) && c.mirror.None?
    ensures Occurs(ttl, r) && Played(r, n, c, c.clock, CloneClean) && r.leftover == s.leftover
  {
    r := Then(ttl, s, DecideClone(1));
  }

  /** An attempt, as far as the running clone. */
  lemma Attempt(ttl: Time, s: State, n: string, c: Scene) returns (r: State)
    requires Occurs(ttl, s) && Played(s, n, c, c.clock, CloneClean)
    ensures Occurs(ttl, r) && r.leftover == s.leftover
    ensures Played(r, n, c.(staging := Some(Partial)), c.clock, CloneRunning(c.clock))
  {
    r := Clean(ttl, s, n, c);
    r := Then(ttl, r, SpawnClone(1));
  }

  lemma Clean(ttl: Time, s: State, n: string, c: Scene) returns (r: State)
    requires Occurs(ttl, s) && Played(s, n, c, c.clock, CloneClean)
    ensures Occurs(ttl, r) && Played(r, n, c.(staging := None), c.clock, CloneReady) && r.leftover == s.leftover
  {
    r := Then(ttl, s, CleanStaging(1));
  }

  lemma Exit(ttl: Time, s: State, n: string, c: Scene) returns (r: State)
    requires Occurs(ttl, s) && Played(s, n, c, c.clock, CloneRunning(c.clock)) && c.staging == Some(Partial)
    ensures Occurs(ttl, r) && r.leftover == s.leftover
    ensures Played(r, n, c.(staging := Some(Complete(c.clock))), c.clock, CloneDone(c.clock))
  {
    r := Then(ttl, s, CloneOk(1, c.clock));
  }

  /** The request is dropped while its rename is in flight. */
  lemma Interrupt(ttl: Time, s: State, n: string, c: Scene) returns (r: State)
    requires Occurs(ttl, s) && Played(s, n, c, c.clock, CloneDone(c.clock))
    ensures Occurs(ttl, r) && Empty(r, n, c.(renames := c.renames + 1))
  {
    r := Then(ttl, s, DropInFlight(1));
  }

  /** A rename left behind is carried out, with a request there or not. */
  lemma Land(ttl: Time, s: State, n: string, c: Scene) returns (r: State)
    requires Occurs(ttl, s) && Scenery(s, n, c) && c.mirror.None? && c.staging.Some? && c.renames > 0
    ensures Occurs(ttl, r) && Scenery(r, n, c.(mirror := c.staging, staging := None, renames := c.renames - 1))
    ensures r.threads == s.threads && r.cells == s.cells
  {
    r := Then(ttl, s, LandRename(n));
  }

  lemma {:induction false} Wait(ttl: Time, s: State, n: string, c: Scene, age: nat) returns (r: State)
    requires Occurs(ttl, s) && Empty(s, n, c)
    ensures Occurs(ttl, r) && Empty(r, n, c.(clock := c.clock + age))
    decreases age
  {
    r := s;
    if age > 0 {
      r := Wait(ttl, s, n, c, age - 1);
      r := Then(ttl, r, Tick);
    }
  }

  lemma FindHead(ttl: Time, s: State, n: string, c: Scene) returns (r: State)
    requires Occurs(ttl, s) && Played(s, n, c, c.clock, Stamped) && c.mirror.Some?
    ensures Occurs(ttl, r) && Played(r, n, c, c.clock, HeadSeen)
  {
    r := Then(ttl, s, SeeHead(1));
  }

  /** With no stamp to go by, the request fetches. */
  lemma Fetch(ttl: Time, s: State, n: string, c: Scene) returns (r: State)
    requires Occurs(ttl, s) && Played(s, n, c, c.clock, HeadSeen) && c.last.None?
    requires c.mirror.Some? && c.mirror.value.Complete?
    ensures Occurs(ttl, r) && Played(r, n, c.(mirror := Some(Complete(c.clock))), c.clock, FetchDone)
  {
    r := Fetching(ttl, s, n, c);
    r := Then(ttl, r, FetchOk(1, c.clock));
  }

  lemma Fetching(ttl: Time, s: State, n: string, c: Scene) returns (r: State)
    requires Occurs(ttl, s) && Played(s, n, c, c.clock, HeadSeen) && c.last.None?
    ensures Occurs(ttl, r) && Played(r, n, c, c.clock, FetchRunning(c.clock))
  {
    r := FindExpired(ttl, s, n, c);
    r := Then(ttl, r, SpawnFetch(1));
  }

  lemma FindExpired(ttl: Time, s: State, n: string, c: Scene) returns (r: State)
    requires Occurs(ttl, s) && Played(s, n, c, c.clock, HeadSeen) && c.last.None?
    ensures Occurs(ttl, r) && Played(r, n, c, c.clock, FetchReady)
  {
    r := Then(ttl, s, DecideFetch(1));
  }

  lemma Store(ttl: Time, s: State, n: string, c: Scene) returns (r: State)
    requires Occurs(ttl, s) && Played(s, n, c, c.clock, FetchDone)
    ensures Occurs(ttl, r) && Played(r, n, c.(last := Some(c.clock)), c.clock, Serving(Fetched))
  {
    r := Then(ttl, s, StoreStamp(1));
  }

  lemma Leave(ttl: Time, s: State, n: string, c: Scene, pc: Pc) returns (r: State)
    requires Occurs(ttl, s) && Played(s, n, c, c.clock, pc) && HoldsLock(pc)
    ensures Occurs(ttl, r) && Empty(r, n, c)
  {
    r := Then(ttl, s, Finish(1));
  }

  /** The evictor takes the mirror away. */
  lemma EvictMirror(ttl: Time, s: State, n: string, c: Scene) returns (r: State)
    requires Occurs(ttl, s) && Empty(s, n, c) && c.mirror.Some?
    ensures Occurs(ttl, r) && Empty(r, n, c.(mirror := None))
  {
    r := EvictorEnters(ttl, s, n, c);
    r := TrashCleared(ttl, r, n);
    r := TakenAway(ttl, r, n, c);
    r := TrashEmptied(ttl, r, n, c.(mirror := None));
  }

  lemma TrashCleared(ttl: Time, s: State, n: string) returns (r: State)
    requires Occurs(ttl, s) && s.evict == EvictHolding(n, 0) && n in s.mirrors && s.trash == {}
    ensures Occurs(ttl, r) && r == s.(evict := EvictReady(n, 0))
  {
    r := Then(ttl, s, EvictClearTrash(true));
  }

  lemma TakenAway(ttl: Time, s: State, n: string, c: Scene) returns (r: State)
    requires Occurs(ttl, s) && Scenery(s.(evict := EvictIdle), n, c) && s.threads == map[] && c.mirror.Some?
    requires s.evict == EvictReady(n, 0) && s.cells == map[0 := Cell(TheEvictor, c.last)]
    ensures Occurs(ttl, r) && r.evict == EvictRemoving(n) && r.trash == {n}
    ensures Empty(r.(evict := EvictIdle, trash := {}), n, c.(mirror := None))
  {
    r := Then(ttl, s, EvictRename);
  }

  lemma TrashEmptied(ttl: Time, s: State, n: string, c: Scene) returns (r: State)
    requires Occurs(ttl, s) && s.evict == EvictRemoving(n) && s.trash == {n}
    requires Empty(s.(evict := EvictIdle, trash := {}), n, c)
    ensures Occurs(ttl, r) && Empty(r, n, c)
  {
    r := Then(ttl, s, EvictRemoveTrash(true));
  }

  lemma EvictorEnters(ttl: Time, s: State, n: string, c: Scene) returns (r: State)
    requires Occurs(ttl, s) && Empty(s, n, c)
    ensures Occurs(ttl, r)
    ensures r == s.(evict := EvictHolding(n, 0), cells := map[0 := Cell(TheEvictor, c.last)])
  {
    r := EvictorQueues(ttl, s, n, c);
    r := Then(ttl, r, EvictLock);
  }

  lemma EvictorQueues(ttl: Time, s: State, n: string, c: Scene) returns (r: State)
    requires Occurs(ttl, s) && Empty(s, n, c)
    ensures Occurs(ttl, r) && r == s.(evict := EvictQueued(n, 0))
  {
    r := Then(ttl, s, EvictCall(n));
    r := Then(ttl, r, EvictGetSlot(7));
  }

  /** With a young enough stamp, the request serves what is there. */
  lemma ServeCached(ttl: Time, s: State, n: string, c: Scene) returns (r: State)
    requires Occurs(ttl, s) && Played(s, n, c, c.clock, HeadSeen)
    requires ttl > 0 && c.last.Some? && c.last.value <= c.clock && c.clock - c.last.value < ttl
    ensures Occurs(ttl, r) && Played(r, n, c, c.clock, Serving(Cached(c.clock)))
  {
    r := Then(ttl, s, DecideCached(1));
  }

  lemma DeleteByHand(ttl: Time, s: State, n: string, c: Scene, started: Time, pc: Pc) returns (r: State)
    requires Occurs(ttl, s) && Played(s, n, c, started, pc) && c.mirror.Some?
    ensures Occurs(ttl, r) && Played(r, n, c.(mirror := None), started, pc)
  {
    r := Then(ttl, s, HandDelete(n));
  }

  // ---------------------------------------------------------------------------------
  // Incomplete mirrors
  // ---------------------------------------------------------------------------------

  /** A finished clone whose rename was left behind. */
  lemma RenameLeft(ttl: Time, n: string) returns (r: State)
    ensures Occurs(ttl, r) && Empty(r, n, Scene(0, None, None, Some(Complete(0)), 1))
  {
    r := First(ttl, n);
    r := Decide(ttl, r, n, Scene(0, None, None, None, 0));
    r := Attempt(ttl, r, n, Scene(0, None, None, None, 0));
    r := Exit(ttl, r, n, Scene(0, None, None, Some(Partial), 0));
    r := Interrupt(ttl, r, n, Scene(0, None, None, Some(Complete(0)), 0));
  }

  /** On any name: the first request is dropped while its rename waits for the blocking pool, and the
      rename lands on what the second one has cloned so far. */
  lemma InterruptedRenameShowsPartial(ttl: Time, n: string)
    ensures exists s :: Occurs(ttl, s) && ShownIncomplete(s, n)
  {
    var c := Scene(0, None, None, Some(Complete(0)), 1);
    var s := RenameLeft(ttl, n);
    s := Enter(ttl, s, n, c);
    s := Decide(ttl, s, n, c);
    s := Attempt(ttl, s, n, c);
    s := Land(ttl, s, n, c.(staging := Some(Partial)));
  }

  /** And: the first request is dropped while its removal of the staging directory waits for the
      blocking pool; the removal opens the directory of the second one, which is then published,
      and goes on deleting there. */
  lemma InterruptedRemovalShowsBitten(ttl: Time, n: string)
    ensures exists s :: Occurs(ttl, s) && ShownIncomplete(s, n)
  {
    var c := Scene(0, None, None, None, 0);
    var s := RemovalLeft(ttl, n);
    s := Enter(ttl, s, n, c);
    s := Decide(ttl, s, n, c);
    s := Attempt(ttl, s, n, c);
    s := Opened(ttl, s, n, c.(staging := Some(Partial)));
    var inode := s.staging[n].inode;
    s := PublishedAs(ttl, s, n, c.(staging := Some(Partial)), inode);
    s := Then(ttl, s, Bite(n, inode));
  }

  lemma RemovalLeft(ttl: Time, n: string) returns (r: State)
    ensures Occurs(ttl, r) && Empty(r, n, Scene(0, None, None, None, 0)) && LateClean(n) in r.leftover
  {
    r := First(ttl, n);
    r := Decide(ttl, r, n, Scene(0, None, None, None, 0));
    r := Then(ttl, r, DropInFlight(1));
  }

  lemma Opened(ttl: Time, s: State, n: string, c: Scene) returns (r: State)
    requires Occurs(ttl, s) && Played(s, n, c, c.clock, CloneRunning(c.clock))
    requires c.staging.Some? && LateClean(n) in s.leftover
    ensures Occurs(ttl, r) && Played(r, n, c, c.clock, CloneRunning(c.clock))
    ensures n in r.staging && Cleaning(n, r.staging[n].inode) in r.leftover
  {
    r := Then(ttl, s, OpenLate(n));
  }

  lemma PublishedAs(ttl: Time, s: State, n: string, c: Scene, inode: nat) returns (r: State)
    requires Occurs(ttl, s) && Played(s, n, c, c.clock, CloneRunning(c.clock))
    requires c.staging == Some(Partial) && c.mirror.None? && Has(s.staging, n, inode)
    ensures Occurs(ttl, r) && Has(r.mirrors, n, inode) && r.leftover == s.leftover
  {
    r := Then(ttl, s, CloneOk(1, c.clock));
    r := Then(ttl, r, RenameIntoPlace(1));
  }

  // ---------------------------------------------------------------------------------
  // Complete mirrors that are too old
  // ---------------------------------------------------------------------------------

  /** Two renames left behind, the first carried out in the middle of the second request: a mirror,
      another clone of it in the staging directory, a rename outstanding - and `age` later. */
  lemma OldCloneWaiting(ttl: Time, n: string, age: nat) returns (r: State)
    ensures Occurs(ttl, r) && Empty(r, n, Scene(age, None, Some(Complete(0)), Some(Complete(0)), 1))
  {
    var c := Scene(0, None, None, Some(Complete(0)), 1);
    r := RenameLeft(ttl, n);
    r := Enter(ttl, r, n, c);
    r := Decide(ttl, r, n, c);
    r := Land(ttl, r, n, c);
    c := Scene(0, None, Some(Complete(0)), None, 0);
    r := Attempt(ttl, r, n, c);
    r := Exit(ttl, r, n, c.(staging := Some(Partial)));
    r := Interrupt(ttl, r, n, c.(staging := Some(Complete(0))));
    r := Wait(ttl, r, n, c.(staging := Some(Complete(0)), renames := 1), age);
  }

  /** From there a request fetches. */
  lemma FetchedLater(ttl: Time, n: string, age: nat) returns (r: State)
    ensures Occurs(ttl, r)
    ensures Played(r, n, Scene(age, None, Some(Complete(age)), Some(Complete(0)), 1), age, FetchDone)
  {
    var c := Scene(age, None, Some(Complete(0)), Some(Complete(0)), 1);
    r := OldCloneWaiting(ttl, n, age);
    r := Enter(ttl, r, n, c);
    r := FindHead(ttl, r, n, c);
    r := Fetch(ttl, r, n, c);
  }

  /** It stores its stamp, the mirror is evicted, and the rename left behind puts the old clone in
      place under the new stamp. */
  lemma OldCloneLands(ttl: Time, n: string, age: nat) returns (r: State)
    ensures Occurs(ttl, r) && Empty(r, n, Scene(age, Some(age), Some(Complete(0)), None, 0))
  {
    var c := Scene(age, None, Some(Complete(age)), Some(Complete(0)), 1);
    r := FetchedLater(ttl, n, age);
    r := Store(ttl, r, n, c);
    c := c.(last := Some(age));
    r := Leave(ttl, r, n, c, Serving(Fetched));
    r := EvictMirror(ttl, r, n, c);
    r := Land(ttl, r, n, c.(mirror := None));
  }

  /** So no TTL bounds what a request may be served: on any name, a run in which it is handed, as
      fresh, a complete mirror older than any given age. */
  lemma LateRenameServesStale(ttl: Time, n: string, age: nat)
    requires ttl > 0
    ensures exists s ::
              && Occurs(ttl, s) && 1 in s.threads && s.threads[1].name == n && s.threads[1].wantFetch
              && s.threads[1].pc.Serving? && s.threads[1].pc.outcome.Cached?
              && n in s.mirrors && s.mirrors[n].body.Complete?
              && s.mirrors[n].body.read + age <= s.threads[1].pc.outcome.decided
  {
    var c := Scene(age, Some(age), Some(Complete(0)), None, 0);
    var s := OldCloneLands(ttl, n, age);
    s := Enter(ttl, s, n, c);
    s := FindHead(ttl, s, n, c);
    s := ServeCached(ttl, s, n, c);
  }

  /** The other way: between the fetch and its stamp the mirror is deleted by hand and the rename
      left behind puts the old clone in its place. */
  lemma StampOutlivesMirror(ttl: Time, n: string, age: nat)
    requires age > 0
    ensures exists s ::
              && Occurs(ttl, s) && Enabled(ttl, s, StoreStamp(1)) && !Misdated(s, n)
              && n in s.mirrors && s.mirrors[n].body.Complete?
              && Misdated(Next(ttl, s, StoreStamp(1)), n)
  {
    var c := Scene(age, None, Some(Complete(age)), Some(Complete(0)), 1);
    var s := FetchedLater(ttl, n, age);
    s := DeleteByHand(ttl, s, n, c, age, FetchDone);
    s := Land(ttl, s, n, c.(mirror := None));
    var r := Then(ttl, s, StoreStamp(1));
    assert Misdated(r, n);
  }
}
