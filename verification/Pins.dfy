/** The pins a mirror keeps for objects fetched by bare id (src/git.rs: `ensure_wanted_oids`,
    `prune_wants`): how many there can be, and which ones a prune keeps. */
module Pins {
  import opened Common

  /** Pinned object ids with the creator date git reports for each. */
  type Pins = map<string, int>

  /** `attempts` counts the want-fetches since the last prune that worked. */
  datatype State = State(pins: Pins, attempts: nat)

  /** Never ask for more than the mirror will retain; 0 means no limit. */
  function CapMissing(missing: seq<string>, maxWants: nat): (r: seq<string>)
    ensures r <= missing
    ensures maxWants > 0 ==> |r| == if |missing| < maxWants then |missing| else maxWants
    ensures maxWants == 0 ==> r == missing
  {
    if maxWants > 0 && |missing| > maxWants then missing[..maxWants] else missing
  }

  /** A listing as `for-each-ref --sort=-creatordate` prints it: every pin once, newest date first,
      equal dates in any order. */
  ghost predicate IsListing(pins: Pins, refs: seq<string>) {
    && (forall n :: n in refs <==> n in pins)
    && (forall i, j :: 0 <= i < j < |refs| ==> refs[i] != refs[j])
    && (forall i, j :: 0 <= i < j < |refs| ==> pins[refs[i]] >= pins[refs[j]])
  }

  /** The refs past the limit, collected one by one for a single deletion transaction. */
  method Deletions(refs: seq<string>, maxWants: nat) returns (deleted: set<string>)
    requires maxWants > 0
    ensures deleted == set i | maxWants <= i < |refs| :: refs[i]
  {
    deleted := {};
    if |refs| <= maxWants { return; }
    var i := maxWants;
    while i < |refs|
      invariant maxWants <= i <= |refs|
      invariant deleted == set k | maxWants <= k < i :: refs[k]
    {
      deleted := deleted + {refs[i]};
      i := i + 1;
    }
  }

  /** What is pinned after the transaction. */
  function Pruned(pins: Pins, refs: seq<string>, maxWants: nat): Pins {
    pins - (set i | maxWants <= i < |refs| :: refs[i])
  }

  datatype Step =
    | Recloned                                       // evicted and cloned again: no pins
    | Refreshed                                      // `fetch --prune` leaves the pin namespace alone
    | WantFetch(missing: seq<string>, dates: map<string, int>, pinned: set<string>)  // any outcome
    | PruneOk(refs: seq<string>)
    | PruneFailed

  /** A want-fetch that fails may still have pinned some of what it asked for. */
  ghost predicate Enabled(maxWants: nat, s: State, step: Step) {
    match step
    case WantFetch(missing, dates, pinned) =>
      pinned <= dates.Keys && forall n :: n in pinned ==> n in CapMissing(missing, maxWants)
    case PruneOk(refs) => IsListing(s.pins, refs)
    case _ => true
  }

  ghost function Next(maxWants: nat, s: State, step: Step): State
    requires Enabled(maxWants, s, step)
  {
    match step
    case Recloned => State(map[], 0)
    case Refreshed => s
    case WantFetch(missing, dates, pinned) =>
      State(s.pins + (map n | n in pinned :: dates[n]), s.attempts + 1)
    case PruneOk(refs) => State(Pruned(s.pins, refs, maxWants), 0)
    case PruneFailed => s
  }

  // ---------------------------------------------------------------------------------
  // How many
  // ---------------------------------------------------------------------------------

  lemma {:induction false} SetWithinSeq(a: set<string>, s: seq<string>)
    requires forall n :: n in a ==> n in s
    ensures |a| <= |s|
    decreases |s|
  {
    if s == [] {
      assert a == {};
    } else {
      var k := |s| - 1;
      assert s == s[..k] + [s[k]];
      SetWithinSeq(a - {s[k]}, s[..k]);
      assert a <= (a - {s[k]}) + {s[k]};
      SubsetSize(a, (a - {s[k]}) + {s[k]});
    }
  }

  /** What is left is what the listing put first. */
  lemma PrunedKeepsFront(pins: Pins, refs: seq<string>, maxWants: nat)
    requires IsListing(pins, refs)
    ensures forall i :: 0 <= i < |refs| ==> (refs[i] in Pruned(pins, refs, maxWants) <==> i < maxWants)
    ensures |Pruned(pins, refs, maxWants)| <= maxWants
  {
    forall i | 0 <= i < |refs| ensures refs[i] in Pruned(pins, refs, maxWants) <==> i < maxWants {
      PrunedAt(pins, refs, maxWants, i);
    }
    PrunedSize(pins, refs, maxWants);
  }

  lemma PrunedAt(pins: Pins, refs: seq<string>, maxWants: nat, i: int)
    requires IsListing(pins, refs) && 0 <= i < |refs|
    ensures refs[i] in Pruned(pins, refs, maxWants) <==> i < maxWants
  {
    assert refs[i] in refs;
  }

  lemma PrunedSize(pins: Pins, refs: seq<string>, maxWants: nat)
    requires IsListing(pins, refs)
    ensures |Pruned(pins, refs, maxWants)| <= maxWants
  {
    PrunedWithinFront(pins, refs, maxWants);
    var front := if |refs| <= maxWants then refs else refs[..maxWants];
    SetWithinSeq(Pruned(pins, refs, maxWants).Keys, front);
  }

  lemma PrunedWithinFront(pins: Pins, refs: seq<string>, maxWants: nat)
    requires IsListing(pins, refs)
    ensures var front := if |refs| <= maxWants then refs else refs[..maxWants];
            forall n :: n in Pruned(pins, refs, maxWants).Keys ==> n in front
  {
    var front := if |refs| <= maxWants then refs else refs[..maxWants];
    forall n | n in Pruned(pins, refs, maxWants).Keys ensures n in front {
      var i :| 0 <= i < |refs| && refs[i] == n;
      assert front[i] == n;
    }
  }

  lemma PinsAdded(pins: Pins, dates: map<string, int>, pinned: set<string>)
    requires pinned <= dates.Keys
    ensures |pins + (map n | n in pinned :: dates[n])| <= |pins| + |pinned|
  {
    var r := pins + (map n | n in pinned :: dates[n]);
    assert r.Keys == pins.Keys + pinned;
    assert |r.Keys| <= |pins.Keys| + |pinned|;
  }

  /** At most `maxWants` pins for each want-fetch since the last prune that worked, and as many again. */
  ghost predicate Bounded(maxWants: nat, s: State) { |s.pins| <= maxWants * (1 + s.attempts) }

  lemma OneMoreAttempt(maxWants: nat, s: State, s': State)
    requires Bounded(maxWants, s) && s'.attempts == s.attempts + 1 && |s'.pins| <= |s.pins| + maxWants
    ensures Bounded(maxWants, s')
  {
    assert maxWants * (1 + s'.attempts) == maxWants * (1 + s.attempts) + maxWants;
  }

  lemma NoAttempts(maxWants: nat, s: State)
    requires s.attempts == 0 && |s.pins| <= maxWants
    ensures Bounded(maxWants, s)
  {
  }

  lemma StepKeepsBound(maxWants: nat, s: State, step: Step)
    requires maxWants > 0 && Enabled(maxWants, s, step) && Bounded(maxWants, s)
    ensures Bounded(maxWants, Next(maxWants, s, step))
  {
    match step
    case WantFetch(missing, dates, pinned) =>
      SetWithinSeq(pinned, CapMissing(missing, maxWants));
      PinsAdded(s.pins, dates, pinned);
      OneMoreAttempt(maxWants, s, Next(maxWants, s, step));
    case PruneOk(refs) =>
      PrunedKeepsFront(s.pins, refs, maxWants);
      NoAttempts(maxWants, Next(maxWants, s, step));
    case Recloned => NoAttempts(maxWants, State(map[], 0));
    case _ =>
  }

  ghost function After(maxWants: nat, s: State, steps: seq<Step>): RunResult<State>
    decreases |steps|
  {
    if steps == [] then Reached(s)
    else if Enabled(maxWants, s, steps[0]) then After(maxWants, Next(maxWants, s, steps[0]), steps[1..])
    else Blocked
  }

  /** The pin bound holds in every run of a mirror. */
  lemma {:induction false} PinBound(maxWants: nat, s: State, steps: seq<Step>)
    requires maxWants > 0 && Bounded(maxWants, s) && After(maxWants, s, steps).Reached?
    ensures Bounded(maxWants, After(maxWants, s, steps).state)
    decreases |steps|
  {
    if steps != [] {
      StepKeepsBound(maxWants, s, steps[0]);
      PinBound(maxWants, Next(maxWants, s, steps[0]), steps[1..]);
    }
  }

  // ---------------------------------------------------------------------------------
  // Which ones
  // ---------------------------------------------------------------------------------

  /** A prune keeps no pin older than one it drops. */
  lemma PruneKeepsNewest(pins: Pins, refs: seq<string>, maxWants: nat, kept: string, dropped: string)
    requires IsListing(pins, refs)
    requires kept in Pruned(pins, refs, maxWants)
    requires dropped in pins && dropped !in Pruned(pins, refs, maxWants)
    ensures pins[kept] >= pins[dropped]
  {
    PrunedKeepsFront(pins, refs, maxWants);
    var i :| 0 <= i < |refs| && refs[i] == kept;
    var j :| 0 <= j < |refs| && refs[j] == dropped;
  }

  ghost function Newer(pins: Pins, n: string): set<string>
    requires n in pins
  {
    set x | x in pins && pins[x] > pins[n]
  }

  /** The other pins that are no older than `n`. */
  ghost function NoOlder(pins: Pins, n: string): set<string>
    requires n in pins
  {
    set x | x in pins && x != n && pins[x] >= pins[n]
  }

  /** Whether a pin survives is decided by creator dates alone; when it was fetched plays no part. A
      pin with `maxWants` newer ones never survives, and one with fewer than `maxWants` others at
      least as new always does. In between, among equal dates, git's listing decides. */
  lemma SurvivesByDate(pins: Pins, refs: seq<string>, maxWants: nat, n: string)
    requires IsListing(pins, refs) && n in pins
    ensures n in Pruned(pins, refs, maxWants) ==> |Newer(pins, n)| < maxWants
    ensures |NoOlder(pins, n)| < maxWants ==> n in Pruned(pins, refs, maxWants)
  {
    PrunedKeepsFront(pins, refs, maxWants);
    var i :| 0 <= i < |refs| && refs[i] == n;
    PlaceIsBetween(pins, refs, i);
  }

  /** So when no other pin has its date, a pin survives exactly if fewer than `maxWants` are newer. */
  lemma SurvivesExactly(pins: Pins, refs: seq<string>, maxWants: nat, n: string)
    requires IsListing(pins, refs) && n in pins
    requires forall a :: a in pins && pins[a] == pins[n] ==> a == n
    ensures n in Pruned(pins, refs, maxWants) <==> |Newer(pins, n)| < maxWants
  {
    SurvivesByDate(pins, refs, maxWants, n);
    assert NoOlder(pins, n) == Newer(pins, n);
  }

  /** Neither bound can be improved: between them there is a listing that keeps the pin and one that
      drops it. */
  lemma TiesGoEitherWay(a: string, b: string, date: int)
    requires a != b
    ensures var pins := map[a := date, b := date];
            && |Newer(pins, a)| < 1 <= |NoOlder(pins, a)|
            && IsListing(pins, [a, b]) && a in Pruned(pins, [a, b], 1)
            && IsListing(pins, [b, a]) && a !in Pruned(pins, [b, a], 1)
  {
    var pins := map[a := date, b := date];
    assert Newer(pins, a) == {} && NoOlder(pins, a) == {b};
    FirstOfTwo(pins, a, b);
    FirstOfTwo(pins, b, a);
  }

  lemma FirstOfTwo(pins: Pins, a: string, b: string)
    requires a != b && pins.Keys == {a, b} && pins[a] == pins[b]
    ensures IsListing(pins, [a, b]) && a in Pruned(pins, [a, b], 1) && b !in Pruned(pins, [a, b], 1)
  {
    var refs := [a, b];
    assert refs[0] == a && refs[1] == b;
    PrunedAt(pins, refs, 1, 0);
    PrunedAt(pins, refs, 1, 1);
  }

  ghost function Before(refs: seq<string>, i: int): set<string>
    requires 0 <= i <= |refs|
  {
    set k | 0 <= k < i :: refs[k]
  }

  lemma PlaceIsBetween(pins: Pins, refs: seq<string>, i: int)
    requires IsListing(pins, refs) && 0 <= i < |refs|
    ensures |Newer(pins, refs[i])| <= i <= |NoOlder(pins, refs[i])|
  {
    var before := Before(refs, i);
    forall x | x in Newer(pins, refs[i]) ensures x in before {
      var k :| 0 <= k < |refs| && refs[k] == x;
      assert k > i ==> pins[refs[i]] >= pins[refs[k]];
    }
    DistinctPrefixSize(refs, i);
    SubsetSize(Newer(pins, refs[i]), before);
    SubsetSize(before, NoOlder(pins, refs[i]));
  }

  lemma {:induction false} DistinctPrefixSize(refs: seq<string>, i: int)
    requires forall a, b :: 0 <= a < b < |refs| ==> refs[a] != refs[b]
    requires 0 <= i <= |refs|
    ensures |Before(refs, i)| == i
    decreases i
  {
    if i > 0 {
      DistinctPrefixSize(refs, i - 1);
      assert Before(refs, i) == Before(refs, i - 1) + {refs[i - 1]};
      assert refs[i - 1] !in Before(refs, i - 1);
    } else {
      assert Before(refs, i) == {};
    }
  }

  /** So a pin can be dropped by the very prune that follows its fetch: with room for one, an older
      commit fetched after a newer one does not stay. */
  lemma JustFetchedPinCanBeDropped(newer: string, older: string)
    requires newer != older
    ensures var s0 := State(map[newer := 1], 0);
            var fetch, prune := WantFetch([older], map[older := 0], {older}), PruneOk([newer, older]);
            && Enabled(1, s0, fetch)
            && var s1 := Next(1, s0, fetch);
               && older in s1.pins && Enabled(1, s1, prune)
               && newer in Next(1, s1, prune).pins && older !in Next(1, s1, prune).pins
  {
    var s1 := Next(1, State(map[newer := 1], 0), WantFetch([older], map[older := 0], {older}));
    var refs := [newer, older];
    assert refs[0] == newer && refs[1] == older;
    assert IsListing(s1.pins, refs);
    PrunedKeepsFront(s1.pins, refs, 1);
  }

  // ---------------------------------------------------------------------------------
  // Since the last prune
  // ---------------------------------------------------------------------------------

  /** The step may take pins away. */
  predicate Resets(step: Step) { step.Recloned? || step.PruneOk? }

  /** The pins made since the last prune or clone, by the steps alone, each with its latest date. */
  ghost function Made(steps: seq<Step>): Pins {
    if steps == [] then map[]
    else
      var k := |steps| - 1;
      match steps[k]
      case Recloned => map[]
      case PruneOk(refs) => map[]
      case WantFetch(missing, dates, pinned) => Made(steps[..k]) + (map n | n in pinned && n in dates :: dates[n])
      case _ => Made(steps[..k])
  }

  /** How many want-fetches there were since. */
  function Fetches(steps: seq<Step>): nat {
    if steps == [] || Resets(steps[|steps| - 1]) then 0
    else Fetches(steps[..|steps| - 1]) + if steps[|steps| - 1].WantFetch? then 1 else 0
  }

  lemma {:induction false} Snoc(maxWants: nat, s: State, steps: seq<Step>, step: Step)
    ensures var r := After(maxWants, s, steps);
            After(maxWants, s, steps + [step]) ==
              if r.Reached? && Enabled(maxWants, r.state, step) then Reached(Next(maxWants, r.state, step)) else Blocked
    decreases |steps|
  {
    var longer := steps + [step];
    if steps == [] {
      assert longer[1..] == [];
    } else {
      assert longer[1..] == steps[1..] + [step];
      if Enabled(maxWants, s, steps[0]) { Snoc(maxWants, Next(maxWants, s, steps[0]), steps[1..], step); }
    }
  }

  lemma StepMakes(maxWants: nat, s: State, steps: seq<Step>, step: Step, base: State)
    requires Enabled(maxWants, s, step) && !Resets(step)
    requires s.pins == base.pins + Made(steps) && s.attempts == base.attempts + Fetches(steps)
    ensures Next(maxWants, s, step).pins == base.pins + Made(steps + [step])
    ensures Next(maxWants, s, step).attempts == base.attempts + Fetches(steps + [step])
  {
    assert (steps + [step])[..|steps|] == steps;
  }

  /** Nothing but a prune or a fresh clone takes a pin away: in a run without them, every pin there
      was stays, every want-fetch adds what it pinned, and that is all. */
  lemma {:induction false} PinsAccumulate(maxWants: nat, s: State, steps: seq<Step>)
    requires After(maxWants, s, steps).Reached? && (forall i :: 0 <= i < |steps| ==> !Resets(steps[i]))
    ensures var r := After(maxWants, s, steps).state;
            r.pins == s.pins + Made(steps) && r.attempts == s.attempts + Fetches(steps)
    decreases |steps|
  {
    if steps != [] {
      var k := |steps| - 1;
      assert steps == steps[..k] + [steps[k]];
      Snoc(maxWants, s, steps[..k], steps[k]);
      PinsAccumulate(maxWants, s, steps[..k]);
      assert !Resets(steps[k]);
      StepMakes(maxWants, After(maxWants, s, steps[..k]).state, steps[..k], steps[k], s);
    }
  }

  /** After a fresh clone a mirror has exactly the pins made since. */
  lemma PinsAfterClone(maxWants: nat, s: State, before: seq<Step>, steps: seq<Step>)
    requires forall i :: 0 <= i < |steps| ==> !Resets(steps[i])
    requires After(maxWants, s, before).Reached?
    requires After(maxWants, Next(maxWants, After(maxWants, s, before).state, Recloned), steps).Reached?
    ensures After(maxWants, Next(maxWants, After(maxWants, s, before).state, Recloned), steps).state ==
              State(Made(steps), Fetches(steps))
  {
    PinsAccumulate(maxWants, Next(maxWants, After(maxWants, s, before).state, Recloned), steps);
    assert map[] + Made(steps) == Made(steps);
  }
}
