# A verified model of the caching git proxy

The proxy keeps bare mirrors of upstream repositories and a content-addressed store of git-LFS
objects in one cache directory with one byte budget. This project models the parts of it whose
correctness depends on many steps fitting together, and proves what they promise.

| module | what it models |
|---|---|
| `Index`, `SharedIndex` | the in-memory cache index: access order, sizes, dirty set, running total, gauges; `SharedIndex.CacheIndex` updates in place and is proved against the functions of `Index` |
| `Evictor` | request threads, the background evictor, the index and the disk, in every interleaving of mutex sections, disk effects and wake-ups |
| `Accounts` | what the history fields of `Evictor` mean in terms of the steps taken; runs in which nothing goes wrong; the access order over whole runs |
| `Rest` | that every run of `Evictor` can come to rest, and every mirror and object into the cache |
| `Mirror` | the per-repository protocol: slots, locks, TTL stamps, staging, publication, eviction, dropped requests, crashes |
| `Leftovers` | runs of `Mirror` in which a file-system call outlives its request, and what comes of them |
| `Traces` | what the history fields of `Mirror` mean in terms of the steps taken; runs in which no request leaves a call behind |
| `Served` | that every request of `Mirror` can be served and every lock be had, whatever came before |
| `LfsStore` | concurrent downloads of content-addressed objects |
| `UploadPack` | the `upload-pack` cap, the reaper, and the stream wrapper that times a serve |
| `Retry` | the retry loop around upstream git and its bounded stderr tail |
| `PktLine` | pkt-line framing and the extraction of wanted object ids |
| `Names` | accepted repository names and the paths of mirrors, staging, trash and objects |
| `Footprint` | the paths that work on a repository touches on a tree-shaped disk, and when two repositories get in each other's way |
| `Disk` | the flat disk of `Mirror` against that tree: they agree throughout every run |
| `LfsHref` | the link rewriter for LFS batch responses and the parsers its links come back through |
| `Scan`, `Blobs` | the two explicit-stack directory walks, the listing of stored objects, and the startup scan they make up |
| `Pins` | the pins of objects fetched by bare id, and their pruning |

## How to read it

* A protocol is a state machine: `Enabled` is the guard of each step, `Next` its effect, and `After`
  (or `Run`) the state a sequence of steps leads to. Main results quantify over every initial state
  and every sequence of steps. What the environment decides - what git, the disk, the clock and the
  scheduler do - is a parameter of a step or a free choice between steps.
* Some state fields record history so that a result can name its exceptions; the comment on each
  `State` says which. They do not steer the program, with one use: in `Evictor` a measurement is
  exact unless the bytes changed since they were last reported, in which case the walk may have seen
  anything.
* `Accounts` and `Traces` tie those fields to the steps: each gains a name exactly by the steps listed
  for it. A run of `Evictor` whose steps are all `Tidy`, or a run of `Mirror` without a request dropped
  in the middle of a file-system call, has nothing in any field that names an exception; both are
  conditions on the steps alone.
* Results named `...Can...` say that a run exists: whatever has happened, there is a way on. Together
  with the safety results they say that a guard is neither too loose nor too tight.
* Small lemmas that pin a single guard, effect or constant have no row below: those named `...AreFree`
  in `Accounts`, the failures of single steps in `Served`, the spelling of constants in `PktLine`,
  `Names`, `Footprint` and `Scan`.
* `Mirror` and `Evictor` keep the disk as a flat map from names. That is right when no two names in
  use are related, that is, neither is the other followed by `/` and more: `Disk.FlatDiskIsRight`,
  from `Footprint.SeparateExactly`. It is the hypothesis under which their results speak about the
  code; the code does not enforce it.
* `total` and the byte counter of `measure` are 64-bit and wrap, as in a build without overflow
  checks. Results about them are stated modulo 2^64, with lemmas that recover plain arithmetic while
  the true sum fits.
* `usize::from_str_radix` accepts a leading `+` and upper-case digits, so the length prefix of a
  pkt-line is read that way.

## What turned out not to hold

* An object deleted by hand and downloaded again while a reconcile is between its stat sweep and its
  pops drops out of the index although it is on disk: `record_blob` does not set `dirty`, and `dirty`
  is the only protection there. `Evictor.HandDeletedObjectEscapes` gives the run and
  `Evictor.DropLosesExactly` the exact condition.
* A request can be dropped while the rename that publishes its clone, or the removal of its staging
  directory, is queued on the blocking pool. The call is still carried out, outside the lock, and can
  put the unfinished clone of a later request in place, or delete in it before and after it is
  published: `Leftovers.InterruptedRenameShowsPartial`, `Leftovers.InterruptedRemovalShowsBitten`. It
  can also put an old clone in place under a newer stamp, so that a request is served, as fresh, a
  mirror older than any given age: `Leftovers.LateRenameServesStale`. A run shows an incomplete mirror exactly if it takes one of three steps that need such a call:
  `Mirror.PublishedAtomicallyExactly`. Likewise, a stamp promises more than its mirror holds exactly
  after one of five steps: `Mirror.FreshnessHoldsExactly`. `Mirror.AtomicPublication` and
  `Mirror.BoundedStaleness` hold for every name for which no such call took effect since a request
  last published a finished clone.
* An advertised LFS link leads back to its object exactly for repositories whose name neither
  contains the marker path nor ends with it up to the slash: `LfsHref.AdvertisedLinkParsesBack`.
* Pruning can drop the very pin that was just fetched: survival depends on creator dates alone
  (`Pins.SurvivesByDate`, `Pins.JustFetchedPinCanBeDropped`).
* `resolve` accepts names one of which leads to the other (`Names.NestedNamesAccepted`). Then work on
  one touches what belongs to the other (`Footprint.SeparateExactly`): by what the server does, as with
  `x` and `x/HEAD` or `x/foo`, or by what git keeps in a mirror, as with `x` and `x/objects` or
  `x/refs/remotes/origin`. Work on `m` can make `n` count as cloned exactly if `m` is `n/HEAD` or below
  it, or `n` is below `m` (`Footprint.HeadAppearsExactly`), and can get in the way of the rename that
  publishes `n` exactly if the names are related (`Footprint.InTheWayExactly`,
  `Footprint.BlockedRename`). A restart does not find the inner mirror again
  (`Scan.AllMirrorsReportedExactly`).

## Model

| member | source | states |
|---|---|---|
| `Index.TouchKeepsValid` | src/evict.rs:102-105 | using a name keeps the list duplicate-free, in step with the sizes, and the total equal to their sum |
| `Index.RecordBlobKeepsValid` | src/evict.rs:111-119 | recording an object, new or replaced, keeps the total equal to the sum of the tracked sizes |
| `Index.MarkChangedKeepsValid` | src/evict.rs:124-136 | so does marking a mirror changed, which tracks an unknown one at size 0 |
| `Index.SetSizeKeepsValid` | src/evict.rs:157-167 | so does storing a measurement, which is ignored for an untracked name |
| `Index.DropMissingEffect` | src/evict.rs:221-232 | reconciliation removes exactly the missing names that are not dirty, leaves every other size alone, and keeps the books balanced |
| `Index.VictimsAreShortestTail` | src/evict.rs:172-186 | the victims are exactly the shortest least-recently-used run whose removal brings the total to the cap, oldest first; the survivors keep their order and sizes |
| `Index.VictimStep` | src/evict.rs:175-183 | one turn of the loop: popping the tail entry leads to the same final state and the same victims |
| `Index.Run` | src/evict.rs:102-233 | balanced books after every sequence of critical sections |
| `Index.ExactWhileSumFits` | src/evict.rs:111-119 | after any sequence of critical sections the total is the true sum whenever that fits in 64 bits, and then no subtraction of a tracked size can underflow |
| `Index.NoWrapWhileSumsFit` | src/evict.rs:157-167 | while the sums before and after fit, re-measuring and recording are plain integer arithmetic |
| `Index.LruOrderIsLastUse` | src/evict.rs:102-136 | over every sequence of operations the list is in strictly descending order of last use, where touching, marking and recording are uses and measuring is not |
| `Index.SortByMtime` | src/evict.rs:71 | the scanned entries, each as often as before, oldest mtime first |
| `Index.SortIsStable` | src/evict.rs:71 | entries of one mtime keep the order in which they were scanned |
| `Index.StartupIndex` | src/evict.rs:74-84 | the startup index tracks every scanned entry at its size, newest at the most-recently-used end, nothing dirty, books balanced |
| `SharedIndex.CacheIndex.constructor` | src/evict.rs:67-97 | the loop over the sorted entries builds that index, sets the gauges, and stores a permit exactly if the total is over the cap |
| `SharedIndex.OpenIndex` | src/evict.rs:67-97 | from any directory tree: one scan, then an index that tracks exactly the reported mirrors and the stored objects, each at its size, books balanced |
| `SharedIndex.CacheIndex.Touch` | src/evict.rs:102-105 | in-place promotion; no wake-up, gauges untouched |
| `SharedIndex.CacheIndex.RecordBlob` | src/evict.rs:111-119 | in-place update with gauges equal to the new total and count, and a stored permit |
| `SharedIndex.CacheIndex.MarkChanged` | src/evict.rs:124-136 | in-place update with gauges in step, and a stored permit |
| `SharedIndex.CacheIndex.TakeDirty` | src/evict.rs:150-152 | returns the dirty set and empties it |
| `SharedIndex.CacheIndex.SetSize` | src/evict.rs:157-167 | in-place update of one size and the total, gauges in step, no wake-up |
| `SharedIndex.CacheIndex.TakeVictims` | src/evict.rs:172-186 | the popping loop returns the specified victims and leaves the specified state, gauges in step |
| `SharedIndex.CacheIndex.ReconcileMissing` | src/evict.rs:221-241 | the loop over the missing names leaves the specified state, gauges in step |
| `Evictor.StartupHasInv` | src/evict.rs:67-97 | the state a startup scan leaves satisfies every invariant, has a permit stored exactly if the total is over the cap, and begins with a pass |
| `Evictor.StepKeepsInv` | src/evict.rs:99-322 | every step of every request, of the background evictor and of the environment keeps all the invariants |
| `Evictor.InvAlways` | src/evict.rs:248-322 | so every run from a state that satisfies them ends in one that does, whatever the interleaving |
| `Evictor.NoLostMaintenance` | src/evict.rs:248-272 | in every run: with names to measure or the total over the cap, a permit is stored, or a mutator has yet to notify, or the pass under way has still to reach that work; so at rest nothing is dirty and the total is within the cap |
| `Evictor.SizesAgreeWithDisk` | src/evict.rs:275-296 | in every run, stale measurements included: a tracked name on disk has its true size unless it is dirty, being measured, being changed under its lock, or faulted; what faults a name is `Accounts.HistoryGainsExactly`, and that nothing is faulted without such a step is `Accounts.TidyRunsAreExact` |
| `Evictor.NothingEscapes` | src/evict.rs:298-321 | in every run, everything on disk is tracked, about to be reported, a victim on its way out, a failed deletion, or falls under one of the recorded exceptions |
| `Evictor.QuiescentDiskWithinCap` | src/evict.rs:244-272 | at rest and with no recorded fault, the bytes of mirrors and objects are within the configured cap, and whatever else is on disk - staging, trash, temporary files - was left by a request that ended, a removal that failed or an earlier process; if nothing was, the whole cache directory is within the cap |
| `Evictor.EvictionFreesWhatItRemoves` | src/git.rs:172-178 | an eviction's rename frees no bytes; the removal of its trash, whose failure the code ignores, frees exactly what it takes away |
| `Evictor.DropLosesExactly` | src/evict.rs:221-232 | a reconcile leaves a name on disk unaccounted for exactly if it was missing at the stat, is not about to be reported, and is an object, however it came back, or a mirror whose request was dropped before its report and that was not marked again |
| `Evictor.HandDeletedObjectEscapes` | src/evict.rs:193-233 | for every object there is a run in which it ends on disk and in no one's books |
| `Accounts.HistoryGainsExactly` | src/evict.rs:275-321 | a step adds a name to the faulted, failed, abandoned or disturbed ones, or a path to the litter, exactly if it is one of the steps listed for each: a lost or partial measurement, an object recorded at a length it does not have, a request that ends with changes it did not report, a late rename, git's own maintenance, a deletion that fails, and so on |
| `Accounts.TidyRunsAreExact` | src/evict.rs:244-322 | in every run none of whose steps is such a one, judged by the steps alone: every tracked name on disk that is not waiting to be measured nor in use has the size last written under it; everything on disk is tracked, about to be reported or on its way out; and at rest the whole cache directory is within the cap |
| `Accounts.LruInEveryRun` | src/evict.rs:102-186 | in every run without a restart, whatever the interleaving, the access order is strictly descending in the place of the last step that used each name |
| `Accounts.LeavesDiskExactly` | src/evict.rs:298-321 | a mirror or object leaves the disk exactly by an eviction that goes through, an unlink that does, or a deletion by hand |
| `Accounts.StopsForGood` | src/evict.rs:263-268 | an evictor that was told to stop takes no further step in any run until a restart |
| `Rest.EveryRunCanComeToRest` | src/evict.rs:244-272 | from every state of every run in which the evictor has not been stopped there is a way to rest, where nothing is dirty and the total is within the cap |
| `Rest.MirrorCanBeCloned` | src/git.rs:321-368 | a mirror that is not there can be cloned at any size: it ends on disk, marked changed and most recently used, the evictor notified, no staging directory and no lock left |
| `Rest.MirrorCanBeFetched` | src/git.rs:207-218 | one that is there can be refreshed to any size, with the same report |
| `Rest.ObjectCanBeStored` | src/lfs.rs:158-192 | an object that is not there can be stored: it ends on disk and in the index at its size, the evictor notified, no temporary file and no lock left |
| `Mirror.StepKeepsInv` | src/git.rs:130-226 | every step of every request, of the evictor and of the environment keeps the slot, lock, stamp, staging and freshness invariants |
| `Mirror.InvAlways` | src/git.rs:130-226 | so they hold throughout every run |
| `Mirror.BoundedStaleness` | src/git.rs:186-226 | whenever `ensure_fresh` with `want_fetch` is about to return, the mirror was read from upstream after this call's own stamp, or less than the TTL before the decision - across evictions, failed and retried pulls, dropped requests and restarts - unless it is misdated, which takes a call left behind that took effect on it |
| `Mirror.MisdatedExactly` | src/git.rs:186-226 | in every state the invariants allow, a step makes a stamp promise more than its mirror holds exactly if it shows the mirror incomplete, lands a clone older than the stamp by a rename left behind, or stores the stamp of a pull whose mirror has given way to an older one |
| `Mirror.FreshnessHoldsExactly` | src/git.rs:186-226 | a run from any start ever holds a misdated mirror exactly if it takes one of those steps |
| `Mirror.MutualExclusion` | src/git.rs:130-179 | no two requests past the lock work on one repository, nor one alongside the evictor's critical section for it |
| `Mirror.Coalescing` | src/git.rs:192-218 | after a successful pull no clone of that mirror is decided, and no refresh fetch within the TTL of the pull's stamp, until the mirror disappears or the process restarts |
| `Mirror.DecidesExactly` | src/git.rs:203-212 | in every run, at the moment of decision: a clone exactly if there is no HEAD; with one, a fetch exactly if `want_fetch` and the stamp is missing, as old as the TTL, or the TTL is zero; the cached mirror otherwise; a request without `want_fetch` never goes to upstream for a mirror that is there |
| `Mirror.AtomicPublication` | src/git.rs:321-368 | with a crash possible at any step, what is visible at a mirror path is a clone that exited with success; every attempt starts without a staging directory; a finished clone finds its staging directory complete and nothing in the way of its rename; with the exception of calls left behind that took effect |
| `Mirror.ShowsIncompleteExactly` | src/git.rs:321-368 | in every state the invariants allow, a step shows a mirror incomplete exactly if a rename left behind lands on an unfinished staging directory, a removal left behind deletes in the mirror, or a clone such a removal has been at is published |
| `Mirror.PublishedAtomicallyExactly` | src/git.rs:321-368 | a run from any start ever shows a mirror incomplete exactly if it takes one of those steps |
| `Mirror.EvictionsTakeTurns` | src/evict.rs:298-310 | in every run, between two eviction renames the removal of the first one's trash ended or the process did |
| `Traces.HistoryExactly` | src/git.rs:186-226 | a name is excepted, a deletion by hand noted, and a pull put on record or forgotten, exactly by the steps listed for each |
| `Traces.NothingLeftBehind` | src/git.rs:321-368 | in every run in which no request is dropped with a file-system call under way, no name is excepted from anything |
| `Traces.UndisturbedRuns` | src/git.rs:186-226 | in every such run, without exception: every visible mirror is a finished clone read no earlier than its stamp says, a finished clone can be published, and a request with `want_fetch` serves a mirror read after its own stamp or less than the TTL before its decision, unless that mirror was deleted by hand |
| `Served.EveryHolderCanBeServed` | src/git.rs:186-226 | from every state of every run, a request that holds its lock can be served, unless a call left behind is in the way of its clone: from the cache with the mirror untouched if it found HEAD and does not want a fetch, by a clone if there is no mirror |
| `Served.EveryLockCanBeHad` | src/git.rs:130-179 | a request that waits for its lock can take it if it is free; a request that holds it can let go, after which it can; otherwise the evictor is at work under it, which `Served.EvictorCanLetGo` and `Served.EvictorCanGoOn` follow to its end |
| `Served.EveryCallQueues` | src/git.rs:130-158 | every call reaches its repository's one lock, whether or not it had one before |
| `Leftovers.InterruptedRenameShowsPartial` | src/git.rs:359-361 | for every name there is a run from an empty cache in which a rename left behind publishes a later request's unfinished clone |
| `Leftovers.InterruptedRemovalShowsBitten` | src/git.rs:694-700 | and one in which a removal left behind deletes in a later request's clone after it was published |
| `Leftovers.LateRenameServesStale` | src/git.rs:186-226 | for every name, TTL and age there is a run in which a request is served, as within the TTL, a complete mirror at least that old |
| `Leftovers.StampOutlivesMirror` | src/git.rs:213-214 | and one in which a stamp is stored for a mirror that has meanwhile given way to an older one |
| `LfsStore.StepKeepsInv` | src/lfs.rs:121-192 | every step keeps: stored objects are intact, temporary names are unshared, and one holder per object |
| `LfsStore.InvAlways` | src/lfs.rs:121-192 | so this holds throughout every run |
| `LfsStore.StoredObjectsHashToTheirName` | src/lfs.rs:158-192 | in every run every stored object hashes to the oid it is stored under, even when a rename outlives its request; what its bytes are is `LfsStore.StoresWhatArrived` |
| `LfsStore.OneDownloadPerObject` | src/lfs.rs:121-142 | at most one request per object is downloading |
| `LfsStore.RepeatDownloadNeedsRemoval` | src/lfs.rs:121-146 | between two completed downloads of one object it was removed, or an existence check for it failed |
| `LfsStore.FileIsWhatArrived` | src/lfs.rs:244-263 | in every run the temporary file of a request is the concatenation of the chunks it received since its download began |
| `LfsStore.StoresWhatArrived` | src/lfs.rs:158-192 | so what a request stores is exactly what it received, and hashes to the oid |
| `LfsStore.EveryObjectCanBeStored` | src/lfs.rs:121-192 | for every way of cutting up contents that hash to an oid there is a run that ends with exactly those contents stored under it, and the lock free |
| `LfsStore.StoredIsHit` | src/lfs.rs:121-142 | a stored object is a hit at either check, without a download |
| `LfsStore.NobodyIsStuck` | src/lfs.rs:121-157 | a check that finds nothing or fails never stops a request, and a request that ends frees its lock |
| `LfsStore.StoreChangesExactly` | src/lfs.rs:158-192 | the store gains an object exactly by a rename and loses one exactly by its own removal |
| `LfsStore.DroppedRenameCanLand` | src/lfs.rs:180-192 | a rename that its dropped request left in flight can still publish the checked bytes, after the lock is gone |
| `LfsStore.CrashIsRestart` | src/lfs.rs:121-192 | after a crash at any step the process starts on an intact store |
| `LfsStore.NoStrayFiles` | src/lfs.rs:158-192 | in every run in which requests remove their files when they fail, every temporary file belongs to a request at work or a rename in flight |
| `UploadPack.RecordedExactlyOnce` | src/git.rs:845-888 | over any polls followed by the drop exactly one duration is recorded, and the reaper hears of success exactly if some poll reached end of file |
| `UploadPack.TimedReader.constructor` | src/git.rs:312-318 | a fresh stream: recorder armed, nothing sent, nothing observed |
| `UploadPack.TimedReader.RecordOnce` | src/git.rs:853-861 | the recorder is taken at most once |
| `UploadPack.TimedReader.PollRead` | src/git.rs:865-880 | a poll at end of file sends and records; any other poll changes nothing |
| `UploadPack.TimedReader.Dispose` | src/git.rs:883-888 | dropping records if nothing was recorded and closes an unsent channel |
| `UploadPack.StepKeepsInv` | src/git.rs:267-319 | every step of clients, children and reapers keeps the permit and channel invariants |
| `UploadPack.CapCoversUnreapedChildren` | src/git.rs:273-309 | in every run permits available plus held equal the cap, and children not yet reaped never exceed it |
| `UploadPack.KilledOnlyBeforeEof` | src/git.rs:783-811 | a child is killed only if its client went away before end of file; no stream records twice |
| `UploadPack.ReaperActsExactly` | src/git.rs:783-811 | in every run, by the steps taken: the child is killed exactly if the reaper was told that the client is gone; a reaper drains only for a client that saw the end, and hears of every client that goes; a stream records one duration if it was opened and none if not |
| `UploadPack.AllPermitsCanReturn` | src/git.rs:273-309 | from every state of every run, all connections can end, with every child reaped and every permit back |
| `UploadPack.WaitsExactly` | src/git.rs:273-276 | a request waits exactly while all the cap's permits are held; without a cap never |
| `UploadPack.EveryPackCanBeServed` | src/git.rs:267-319 | with a permit to be had, for any polls of the stream, there is a run that serves the request, records one duration, kills the child exactly if no poll reached end of file, and gives the permit back |
| `Retry.DrainTail` | src/git.rs:646-661 | for every chunking of stderr, what is kept is a suffix of the stream, of the smaller of its length and 65536 bytes |
| `Retry.FlattenJoins` | src/git.rs:646-661 | the stream a chunking stands for: one chunk is itself, and two chunkings in a row are joined in their order |
| `Retry.RunUpstream` | src/git.rs:638-691 | one to four attempts, with 0, 1, 3 and 7 seconds slept before them; every attempt but the last a retryable failure; success exactly if some attempt succeeds after only transient, exit-coded failures; the end of the loop is unreachable |
| `Retry.SleptBefore` | src/git.rs:45-50 | the delays before any attempt sum to at most seven seconds |
| `Retry.AttemptDecides` | src/git.rs:663-690 | an attempt reached after only retryable failures decides the outcome unless it is itself to be retried |
| `Retry.RetriesExactlyPassing` | src/git.rs:663-690 | an attempt may be followed by another exactly if git was started and read to its end, exited with a failure code, the staging directory could be emptied, and the tail of what it said is transient and not permanent |
| `PktLine.EncodeIsFrame` | src/git.rs:914-918 | `pkt_line` prints a frame exactly for payloads of at most 65531 bytes, and the frame carries the payload |
| `PktLine.FormatHexReadsBack` | src/git.rs:914-918 | the printed length reads back as itself |
| `PktLine.LengthExactly` | src/git.rs:930-936 | four bytes are a length exactly if they are hex digits of either case, the first of which may be a plus sign; they are read in base sixteen |
| `PktLine.FramesCoverBody` | src/git.rs:926-959 | any body splits into whole frames and a leftover that starts with none |
| `PktLine.FramesOfConcatenation` | src/git.rs:926-959 | whole frames in front of anything are found as they are |
| `PktLine.WalkIsLongest` | src/git.rs:926-959 | every way of cutting a prefix of the body into frames is where the walk begins |
| `PktLine.WantInIsWantLine` | src/git.rs:945-956 | a payload yields an oid exactly if it is a want line by shape: `want `, then 40 or 64 hex digits that no further hex digit follows |
| `PktLine.ParseWants` | src/git.rs:926-959 | the cursor loop terminates in bounds on arbitrary bytes and returns the wants of the longest well-framed prefix |
| `PktLine.WantsOfPackets` | src/git.rs:914-959 | after any sequence of encoded payloads, flush, delimiter and response-end packets, exactly the oids of the want payloads are found, with those of whatever follows |
| `PktLine.WantsAfterFrames` | src/git.rs:926-959 | the wants of frames followed by anything are the union of both |
| `Names.JoinOfSplit` | src/repo.rs:98-102 | joining the components of a name gives the name back |
| `Names.SplitOfJoin` | src/evict.rs:417-424 | splitting joined slash-free components gives the components back |
| `Names.NoAliasing` | src/repo.rs:103-112 | no accepted name lies in or under a staging directory, a trash directory or the object store |
| `Names.AcceptsExactly` | src/repo.rs:94-112 | `resolve` accepts a name exactly if it is not empty, has no NUL, contains no reserved name, and, followed component by component from the cache root, leads exactly where it says, so never outside |
| `Names.NamespacesSeparate` | src/repo.rs:34-45 | mirror, staging and trash paths and object keys are pairwise distinct and injective in name or oid |
| `Names.BlobTestSeparates` | src/evict.rs:326-328 | `is_lfs_blob` holds of every object key and of no accepted name |
| `Names.BlobTestExactly` | src/evict.rs:326-328 | it holds of a key exactly if that lies in or under the object store |
| `Names.RelNameRoundTrip` | src/evict.rs:417-424 | the scan gives a mirror directory the name it was resolved from |
| `Names.NormalFollows` | src/evict.rs:417-424 | a path without `..` leads where its normal components say |
| `Names.EndpointRoundTrip` | src/repo.rs:23-28 | every endpoint path of an accepted repository gives its name back |
| `Names.RepoNameExactly` | src/repo.rs:23-28 | a path yields a name exactly if, without its leading slashes, it is that name, any number of slashes and the suffix |
| `Names.NestedNamesAccepted` | src/repo.rs:94-112 | names one of which leads to the other are accepted, `x/HEAD` and `x/HEAD/z` among them |
| `Footprint.ChangesOnlyTouched` | src/git.rs:321-361 | creating parents, removing, renaming and writing change nothing outside the paths they touch |
| `Footprint.RenameMovesTree` | src/git.rs:359-361 | a rename that goes through moves the tree as it is, path by path and with its contents |
| `Footprint.SeparateExactly` | src/git.rs:336-338 | work on one accepted name can touch the mirror, staging directory or trash of another exactly if one of the names is the other or leads to it |
| `Footprint.OthersUntouched` | src/git.rs:336-338 | for unrelated names no operation for one changes anything of the other's |
| `Footprint.WorkElsewhere` | src/git.rs:160-179 | nor does any amount of work on any number of unrelated names |
| `Footprint.StoreApart` | src/repo.rs:42-45 | nothing of the object store belongs to a repository or leads to one |
| `Footprint.CanPutExactly` | src/git.rs:321-361 | the paths at which work on a repository can put something are exactly the directories leading to it and what is in or under its mirror, staging directory and trash |
| `Footprint.HeadAppearsExactly` | src/git.rs:203 | work on `m`, the server's or git's, can put something where the test for `n` looks exactly if `m` is `n/HEAD` or lies below it, or `n` is `m` or lies below it |
| `Footprint.ServerMakesHead` | src/git.rs:321-326 | the server's own part: a path it creates for `m` is `n/HEAD` exactly if `m` is `n/HEAD` or lies below it |
| `Footprint.PublishingMakesHead` | src/git.rs:321-361 | and then publishing `m` makes `n` count as cloned |
| `Footprint.InTheWayExactly` | src/git.rs:359-361 | work on `m`, the server's or git's, can put something into the directory the clone of `n` is renamed to exactly if the names are related |
| `Footprint.ServerInTheWay` | src/git.rs:321-326 | the server's own part: a path it creates for `m` is in that directory exactly if `n` leads to `m` |
| `Footprint.BlockedRename` | src/git.rs:359-361 | with anything in that directory, the rename changes nothing |
| `Disk.GuardsAgree` | src/git.rs:203 | the guards of the protocol are those of the file system: the HEAD test, and whether a rename into place or into the trash goes through |
| `Disk.StepAgrees` | src/git.rs:160-179 | every step of the protocol does to the maps what its file operations do to the tree, whatever git does below its directories |
| `Disk.FlatDiskIsRight` | src/git.rs:160-368 | for unrelated names, maps and tree agree throughout every run |
| `Disk.HeadMeansFinished` | src/git.rs:321-368 | so a HEAD in the tree means a finished clone, unless a call left behind has taken effect since |
| `LfsHref.DecimalReadsBack` | src/lfs.rs:294-333 | the printed size reads back as itself |
| `LfsHref.SizeQuery` | src/server.rs:290-295 | the printed query yields the size and is not taken for a push |
| `LfsHref.ObjectPathParses` | src/repo.rs:59-69 | the printed path parses to the same repository and oid exactly if the repository's name keeps clear of the marker |
| `LfsHref.ObjectPathExactly` | src/repo.rs:59-69 | any path is an object's exactly if, without its leading slashes, it is a marker-free repository, the marker and a valid oid |
| `LfsHref.SizeOfParameters` | src/server.rs:290-295 | in any query the first parameter that begins with `size=` decides, and none means no size |
| `LfsHref.U64Exactly` | src/server.rs:290-295 | a printed number is read back exactly while it fits 64 bits, and nothing but digits after an optional plus sign is read |
| `LfsHref.RoutesExactly` | src/server.rs:117-193 | a GET is refused as a push, taken as a ref listing or taken for an object exactly under the conditions stated on its path and query |
| `LfsHref.AdvertisedLinkParsesBack` | src/server.rs:117-193 | an advertised link goes through dispatch, path and query parsing to the same repository, oid and size under exactly that condition |
| `LfsHref.RewriteDownloadHrefs` | src/lfs.rs:294-333 | if the response has an array of objects, so has the result, of the same length and with every other field as before; each entry with an oid and a download action carries this proxy's link for its oid and size, and the proxy's token or no header, and is otherwise unchanged; any other response is returned as it is |
| `LfsHref.RewriteIsIdempotent` | src/lfs.rs:294-333 | rewriting a rewritten response changes nothing |
| `LfsHref.RewriteTouchesOnlyLinkAndHeader` | src/lfs.rs:294-333 | only `href` and `header` of a download action change; the link names this object's oid and size; the header is the proxy's own token or absent, never upstream's |
| `Scan.Measure` | src/evict.rs:429-452 | the stack walk returns the recursive byte sum and newest mtime, and ends |
| `Scan.MeasureEntries` | src/evict.rs:437-449 | one listing moves its bytes to the counter and its directories to the stack, losing none |
| `Scan.BytesAreOfAllFiles` | src/evict.rs:429-452 | that sum is over the files and links reached through readable directories, each once and nothing else |
| `Scan.NewestIs` | src/evict.rs:429-452 | that mtime is the epoch or that of such a file, and none is newer |
| `Scan.FindMirrors` | src/evict.rs:345-378 | the stack walk reports what recursion does, each as often, adding up to no more than the tree, and ends |
| `Scan.PushChildren` | src/evict.rs:358-375 | exactly the non-reserved directories of one listing are pushed |
| `Scan.NothingReservedReported` | src/evict.rs:364-372 | nothing reported lies in or under a staging directory, the trash or the object store, whatever name they are for |
| `Scan.AcceptedNeverReserved` | src/evict.rs:364-372 | and no component of an accepted name keeps the walk out |
| `Scan.ScanFindsOutermostMirrors` | src/evict.rs:345-378 | a path is reported once if it is an outermost non-root HEAD directory outside reserved names, and otherwise never |
| `Scan.ReportedMirrorsAreDisjoint` | src/evict.rs:349-357 | no reported mirror lies inside another |
| `Scan.ScannedNamesDiffer` | src/evict.rs:417-424 | the reported mirrors get different names |
| `Scan.AllMirrorsReportedExactly` | src/evict.rs:345-378 | the scan reports every mirror on disk exactly if no mirror lies below another HEAD |
| `Scan.UnrelatedMirrorsReported` | src/evict.rs:345-378 | so with unrelated names a restart loses none |
| `Scan.ScanMirrors` | src/evict.rs:345-378 | the entries handed to the index: path names, tree sizes, newest mtimes, all names different |
| `Blobs.FindLfsBlobs` | src/evict.rs:384-411 | the two nested listings return the files of every shard in order, the download directory left out |
| `Blobs.ScanFindsStoredObjects` | src/evict.rs:384-411 | an entry is returned exactly if it stands for a file in a shard of the store, with its key, length and mtime |
| `Blobs.KeyIsObjectKey` | src/evict.rs:400-407 | the scan names an object as the requests for it do |
| `Blobs.StoredObjectsDiffer` | src/evict.rs:400-407 | no key is returned twice |
| `Blobs.ScanAll` | src/evict.rs:68-71 | mirrors and objects together, no name twice, as the index needs |
| `Pins.CapMissing` | src/git.rs:420-428 | a want-fetch asks for the first `max_wants` of the missing ids, or for all of them if there are fewer or no limit is set |
| `Pins.Deletions` | src/git.rs:497-508 | the pins deleted are exactly those past the limit in the listing |
| `Pins.StepKeepsBound` | src/git.rs:408-472 | every step keeps the pin bound |
| `Pins.PinBound` | src/git.rs:408-532 | in every run a mirror holds at most max_wants times one more than the want-fetches since the last successful prune |
| `Pins.PinsAccumulate` | src/git.rs:430-472 | in a run without a successful prune or a fresh clone every pin stays, every want-fetch adds what it pinned at its date, and nothing else changes |
| `Pins.PinsAfterClone` | src/git.rs:321-368 | after a fresh clone a mirror has exactly the pins made since |
| `Pins.PrunedKeepsFront` | src/git.rs:478-532 | a successful prune keeps exactly the first `max_wants` of the listing, so at most that many |
| `Pins.PruneKeepsNewest` | src/git.rs:474-477 | every kept pin is at least as new by creator date as every dropped one |
| `Pins.SurvivesByDate` | src/git.rs:478-508 | a pin with `max_wants` newer ones never survives a prune, and one with fewer than `max_wants` others at least as new always does |
| `Pins.SurvivesExactly` | src/git.rs:478-508 | so a pin whose date no other shares survives exactly if fewer than `max_wants` pins are newer |
| `Pins.TiesGoEitherWay` | src/git.rs:482-490 | between those bounds both outcomes occur |
| `Pins.JustFetchedPinCanBeDropped` | src/git.rs:465-470 | a run in which the pin just fetched is the one pruned |

## Left out

- Mirror.AtomicPublication: excepts names on which a call left behind took effect, because there the code does not publish atomically; the exact condition is `Mirror.PublishedAtomicallyExactly`. The git processes of a dropped request are taken to stop before the next attempt starts, a removal left behind is taken to delete HEAD last, and a deletion by hand to be complete when it is seen: an `rm -rf` in progress also shows a mirror with missing objects.
- Mirror.BoundedStaleness: excepts misdated mirrors; when one comes about is `Mirror.FreshnessHoldsExactly`. A misdated mirror may by chance still be recent enough for a given request.
- Mirror.MutualExclusion: covers work done under the lock; a call that outlives its request runs outside it by nature.
- Mirror.EvictionsTakeTurns: rests on the one evictor, which takes its victims in turn; a second concurrent caller of `evict` is not modelled.
- Evictor.NothingEscapes: assumes unrelated names, and the lock of a name is one abstract holder there; that the slot locks exclude is the subject of `Mirror` and `LfsStore`.
- Evictor.SizesAgreeWithDisk: the bytes a failed upstream operation, a prune after the mark or git's detached maintenance leaves behind are listed as an exception, because nothing reports them.
- Evictor.QuiescentDiskWithinCap: says where the bytes outside mirrors and objects come from, not how many they may be, because the code counts them nowhere.
- LfsStore.RepeatDownloadNeedsRemoval: counts downloads that a request saw through to the end, not a rename that outlived its request.
- Scan.ScanFindsOutermostMirrors: assumes what every file system provides, distinct, non-empty, slash-free names in a directory; names that are not UTF-8 and change when read lossily are not modelled.
- LfsHref.AdvertisedLinkParsesBack: assumes a repository name without `?`, since a client would cut the path there.
- Hard links, quotas, and an object store that is itself a symbolic link.
- The git child processes, refspecs, `cat-file` and `for-each-ref`: steps with a chosen outcome.
- HTTP serving, JSON text, TLS, gzip and sha256: libraries; sha256 is an arbitrary function.
- The substring tables of `transient_upstream_error`: two arbitrary predicates, with permanent beating transient and unknown counting as permanent.
- A `wait` on the `upload-pack` child that itself fails, and wrap-around of the temporary-file counter.
- `advertise_refs`, `missing_oids`, authentication, headers, metrics, configuration and start-up wiring.
- Progress and fairness: that a way on exists is proved, not that the scheduler, git or upstream will take it; the clock may advance between any two steps.
