/** The in-memory index of the on-disk cache (src/evict.rs): an access-ordered list of
    (name, size) pairs, the set of names waiting to be measured, and a byte total kept by
    increments. Every mutex critical section is one function from state to state; the class
    `CacheIndex` performs the same updates in place and is proved against those functions.

    `total` is a Rust `u64` in a build without overflow checks, so its arithmetic wraps.
    The invariant is therefore stated modulo 2^64, and `ExactWhileSumFits` recovers the plain
    equality whenever the true sum fits in 64 bits. */
module Index {
  import opened Common

  function WrappingAdd(a: u64, b: u64): u64 {
    if a + b < U64_MOD then a + b else a + b - U64_MOD
  }

  function WrappingSub(a: u64, b: u64): u64 {
    if b <= a then a - b else a - b + U64_MOD
  }

  /** A count of bytes reduced modulo 2^64. */
  ghost function Wrap(x: nat): u64 {
    if x < U64_MOD then x else Wrap(x - U64_MOD)
  }

  lemma {:induction false} WrapShift(x: nat, prior: u64, size: u64)
    requires prior <= x
    ensures WrappingAdd(WrappingSub(Wrap(x), prior), size) == Wrap(x - prior + size)
    decreases x
  {
    if x >= U64_MOD {
      if prior <= x - U64_MOD {
        WrapShift(x - U64_MOD, prior, size);
        assert x - prior + size >= U64_MOD;
      } else {
        assert Wrap(x) == x - U64_MOD;
      }
    }
  }

  // ---------------------------------------------------------------------------------
  // Access order
  // ---------------------------------------------------------------------------------

  /** No name twice. */
  ghost predicate Distinct(s: seq<string>) {
    s != [] ==> s[|s| - 1] !in s[..|s| - 1] && Distinct(s[..|s| - 1])
  }

  lemma {:induction false} DistinctCons(n: string, s: seq<string>)
    requires Distinct(s) && n !in s
    ensures Distinct([n] + s)
    decreases |s|
  {
    var t := [n] + s;
    if s == [] {
      assert t[..0] == [];
    } else {
      assert t[..|t| - 1] == [n] + s[..|s| - 1];
      DistinctCons(n, s[..|s| - 1]);
    }
  }

  /** `s` with every occurrence of `n` taken out, the others in their old order. */
  function Without(s: seq<string>, n: string): (r: seq<string>)
    ensures forall x :: x in r <==> x in s && x != n
    ensures n !in s ==> r == s
    ensures |r| <= |s|
    ensures Distinct(s) ==> Distinct(r)
  {
    if s == [] then [] else
      var k := |s| - 1;
      assert s == s[..k] + [s[k]];
      var w := Without(s[..k], n);
      assert (w + [s[k]])[..|w|] == w;
      if s[k] == n then w else w + [s[k]]
  }

  /** Promotion to most-recently-used: `n` moves to the front. */
  function Promote(s: seq<string>, n: string): (r: seq<string>)
    ensures forall x :: x in r <==> x in s || x == n
    ensures Distinct(s) ==> Distinct(r)
  {
    var w := Without(s, n);
    assert Distinct(s) ==> Distinct([n] + w) by { if Distinct(s) { DistinctCons(n, w); } }
    [n] + w
  }

  /** Bytes of the names in `s`. */
  ghost function Sum(s: seq<string>, sizes: map<string, u64>): nat
    requires forall x :: x in s ==> x in sizes
  {
    if s == [] then 0 else
      var k := |s| - 1;
      assert s == s[..k] + [s[k]];
      Sum(s[..k], sizes) + sizes[s[k]]
  }

  lemma {:induction false} SumFrame(s: seq<string>, a: map<string, u64>, b: map<string, u64>)
    requires forall x :: x in s ==> x in a && x in b && a[x] == b[x]
    ensures Sum(s, a) == Sum(s, b)
  {
    if s != [] {
      assert s == s[..|s| - 1] + [s[|s| - 1]];
      SumFrame(s[..|s| - 1], a, b);
    }
  }

  lemma {:induction false} SumCons(n: string, s: seq<string>, sizes: map<string, u64>)
    requires n in sizes && forall x :: x in s ==> x in sizes
    ensures Sum([n] + s, sizes) == sizes[n] + Sum(s, sizes)
  {
    var t := [n] + s;
    if s == [] {
      assert t[..0] == [];
    } else {
      var k := |s| - 1;
      assert s == s[..k] + [s[k]];
      assert t[..|t| - 1] == [n] + s[..k];
      SumCons(n, s[..k], sizes);
    }
  }

  lemma {:induction false} SumWithout(s: seq<string>, n: string, sizes: map<string, u64>)
    requires Distinct(s) && n in s
    requires forall x :: x in s ==> x in sizes
    ensures Sum(s, sizes) == sizes[n] + Sum(Without(s, n), sizes)
  {
    var k := |s| - 1;
    assert s == s[..k] + [s[k]];
    if s[k] == n {
      assert n !in s[..k];
    } else {
      SumWithout(s[..k], n, sizes);
      var w := Without(s[..k], n);
      assert (w + [s[k]])[..|w|] == w;
    }
  }

  // ---------------------------------------------------------------------------------
  // State and critical sections
  // ---------------------------------------------------------------------------------

  /** `order` runs from most to least recently used; `sizes` gives each tracked name's bytes. */
  datatype Inner = Inner(order: seq<string>, sizes: map<string, u64>, dirty: set<string>, total: u64) {
    ghost predicate Valid() {
      && Distinct(order)
      && (forall n :: n in order <==> n in sizes)
      && total == Wrap(Sum(order, sizes))
    }
  }

  function Touch(s: Inner, n: string): Inner {
    if n in s.sizes then s.(order := Promote(s.order, n)) else s
  }

  function RecordBlob(s: Inner, key: string, size: u64): Inner {
    var prior := if key in s.sizes then s.sizes[key] else 0;
    s.(order := Promote(s.order, key),
       sizes := s.sizes[key := size],
       total := WrappingAdd(WrappingSub(s.total, prior), size))
  }

  function MarkChanged(s: Inner, n: string): Inner {
    s.(order := Promote(s.order, n),
       sizes := if n in s.sizes then s.sizes else s.sizes[n := 0],
       dirty := s.dirty + {n})
  }

  function TakeDirty(s: Inner): Inner { s.(dirty := {}) }

  function SetSize(s: Inner, n: string, size: u64): Inner {
    if n !in s.sizes then s
    else s.(sizes := s.sizes[n := size],
            total := WrappingAdd(WrappingSub(s.total, s.sizes[n]), size))
  }

  /** Remove one tracked name and its bytes: both `pop_lru` and `pop` do this. */
  function Pop(s: Inner, n: string): Inner
    requires n in s.sizes
  {
    s.(order := Without(s.order, n), sizes := s.sizes - {n}, total := WrappingSub(s.total, s.sizes[n]))
  }

  /** Pop from the tail while the total is over `cap`: the state left and the victims in order. */
  function TakeVictims(s: Inner, cap: u64): (r: (Inner, seq<string>))
    requires forall n :: n in s.order ==> n in s.sizes
    decreases |s.order|
  {
    if s.total <= cap || s.order == [] then (s, []) else
      var v := s.order[|s.order| - 1];
      assert v in s.order;
      assert |Without(s.order, v)| < |s.order|;
      var (s', vs) := TakeVictims(Pop(s, v), cap);
      (s', [v] + vs)
  }

  /** Drop each missing name unless it is dirty. */
  function DropMissing(s: Inner, missing: seq<string>): Inner
    decreases |missing|
  {
    if missing == [] then s else
      var n := missing[0];
      DropMissing(if n !in s.dirty && n in s.sizes then Pop(s, n) else s, missing[1..])
  }

  // ---------------------------------------------------------------------------------
  // Conservation: every critical section keeps `Valid`
  // ---------------------------------------------------------------------------------

  lemma PromoteSum(s: Inner, n: string, b: u64)
    requires s.Valid()
    ensures n in s.sizes ==> Sum(Promote(s.order, n), s.sizes) == Sum(s.order, s.sizes)
    ensures Sum(Promote(s.order, n), s.sizes[n := b])
         == Sum(s.order, s.sizes) - (if n in s.sizes then s.sizes[n] else 0) + b
  {
    var rest := Without(s.order, n);
    if n in s.sizes {
      SumWithout(s.order, n, s.sizes);
      SumCons(n, rest, s.sizes);
    }
    SumCons(n, rest, s.sizes[n := b]);
    SumFrame(rest, s.sizes, s.sizes[n := b]);
  }

  lemma SetSizeSum(s: Inner, n: string, size: u64)
    requires s.Valid() && n in s.sizes
    ensures Sum(s.order, s.sizes[n := size]) == Sum(s.order, s.sizes) - s.sizes[n] + size
  {
    SumWithout(s.order, n, s.sizes);
    SumWithout(s.order, n, s.sizes[n := size]);
    SumFrame(Without(s.order, n), s.sizes, s.sizes[n := size]);
  }

  lemma TouchKeepsValid(s: Inner, n: string)
    requires s.Valid()
    ensures Touch(s, n).Valid()
  {
    PromoteSum(s, n, 0);
  }

  lemma RecordBlobKeepsValid(s: Inner, n: string, size: u64)
    requires s.Valid()
    ensures RecordBlob(s, n, size).Valid()
  {
    PromoteSum(s, n, size);
    var prior := if n in s.sizes then s.sizes[n] else 0;
    if n in s.sizes { SumWithout(s.order, n, s.sizes); }
    WrapShift(Sum(s.order, s.sizes), prior, size);
  }

  lemma MarkChangedKeepsValid(s: Inner, n: string)
    requires s.Valid()
    ensures MarkChanged(s, n).Valid()
  {
    PromoteSum(s, n, 0);
  }

  lemma SetSizeKeepsValid(s: Inner, n: string, size: u64)
    requires s.Valid()
    ensures SetSize(s, n, size).Valid()
  {
    if n in s.sizes {
      SetSizeSum(s, n, size);
      SumWithout(s.order, n, s.sizes);
      WrapShift(Sum(s.order, s.sizes), s.sizes[n], size);
    }
  }

  lemma PopSum(s: Inner, n: string)
    requires s.Valid() && n in s.sizes
    ensures (forall x :: x in Pop(s, n).order ==> x in Pop(s, n).sizes)
    ensures s.sizes[n] <= Sum(s.order, s.sizes)
    ensures Sum(Pop(s, n).order, Pop(s, n).sizes) == Sum(s.order, s.sizes) - s.sizes[n]
  {
    SumWithout(s.order, n, s.sizes);
    SumFrame(Without(s.order, n), s.sizes, s.sizes - {n});
  }

  lemma PopKeepsValid(s: Inner, n: string)
    requires s.Valid() && n in s.sizes
    ensures Pop(s, n).Valid()
    ensures Sum(Pop(s, n).order, Pop(s, n).sizes) == Sum(s.order, s.sizes) - s.sizes[n]
  {
    PopSum(s, n);
    WrapShift(Sum(s.order, s.sizes), s.sizes[n], 0);
  }

  /** Reconciliation keeps the books and drops exactly the missing names that are not dirty. */
  lemma {:induction false} DropMissingEffect(s: Inner, missing: seq<string>)
    requires s.Valid()
    ensures var r := DropMissing(s, missing);
            && r.Valid()
            && r.dirty == s.dirty
            && (forall n :: n in r.sizes <==> n in s.sizes && (n in missing ==> n in s.dirty))
            && (forall n :: n in r.sizes ==> r.sizes[n] == s.sizes[n])
    decreases |missing|
  {
    if missing != [] {
      var n := missing[0];
      assert missing == [n] + missing[1..];
      if n !in s.dirty && n in s.sizes {
        PopKeepsValid(s, n);
        DropMissingEffect(Pop(s, n), missing[1..]);
      } else {
        DropMissingEffect(s, missing[1..]);
      }
    }
  }

  // ---------------------------------------------------------------------------------
  // Victims: exactly the shortest least-recently-used run
  // ---------------------------------------------------------------------------------

  lemma WithoutLast(s: seq<string>)
    requires Distinct(s) && s != []
    ensures Without(s, s[|s| - 1]) == s[..|s| - 1]
  {
    assert s[|s| - 1] !in s[..|s| - 1];
  }

  function Reversed(s: seq<string>): (r: seq<string>)
    ensures |r| == |s| && forall i :: 0 <= i < |s| ==> r[i] == s[|s| - 1 - i]
  {
    if s == [] then [] else [s[|s| - 1]] + Reversed(s[..|s| - 1])
  }

  lemma PopLast(s: Inner)
    requires s.Valid() && s.order != []
    ensures var v := s.order[|s.order| - 1];
            && v in s.sizes && v !in s.order[..|s.order| - 1]
            && Pop(s, v).Valid() && Pop(s, v).order == s.order[..|s.order| - 1]
  {
    var v := s.order[|s.order| - 1];
    assert v in s.order;
    WithoutLast(s.order);
    PopKeepsValid(s, v);
  }

  lemma {:induction false} VictimsKeepBooks(s: Inner, cap: u64)
    requires s.Valid()
    ensures var r := TakeVictims(s, cap).0;
            && r.Valid() && r.total <= cap && r.dirty == s.dirty
            && (forall n :: n in r.sizes ==> n in s.sizes && r.sizes[n] == s.sizes[n])
    decreases |s.order|
  {
    if s.total > cap && s.order != [] {
      PopLast(s);
      VictimsKeepBooks(Pop(s, s.order[|s.order| - 1]), cap);
    }
  }

  lemma {:induction false} VictimsSplitOrder(s: Inner, cap: u64)
    requires s.Valid()
    ensures var (r, vs) := TakeVictims(s, cap);
            && |r.order| <= |s.order| && r.order == s.order[..|r.order|]
            && vs == Reversed(s.order[|r.order|..])
    decreases |s.order|
  {
    if s.total > cap && s.order != [] {
      PopLast(s);
      var p := Pop(s, s.order[|s.order| - 1]);
      VictimsSplitOrder(p, cap);
      var r, vs := TakeVictims(p, cap).0, TakeVictims(p, cap).1;
      OneLonger(s.order, p.order, r.order, vs);
      VictimsUnfold(s, cap);
    } else {
      assert s.order[..|s.order|] == s.order && s.order[|s.order|..] == [];
    }
  }

  lemma VictimsUnfold(s: Inner, cap: u64)
    requires s.Valid() && s.total > cap && s.order != []
    ensures var v := s.order[|s.order| - 1];
            && v in s.sizes && Pop(s, v).Valid()
            && TakeVictims(s, cap) == (TakeVictims(Pop(s, v), cap).0, [v] + TakeVictims(Pop(s, v), cap).1)
  {
    PopLast(s);
  }

  /** A split of the order without its last entry, with that entry put back. */
  lemma OneLonger(order: seq<string>, front: seq<string>, kept: seq<string>, vs: seq<string>)
    requires order != [] && front == order[..|order| - 1]
    requires |kept| <= |front| && kept == front[..|kept|] && vs == Reversed(front[|kept|..])
    ensures kept == order[..|kept|] && [order[|order| - 1]] + vs == Reversed(order[|kept|..])
  {
    var tail := order[|kept|..];
    assert tail[..|tail| - 1] == front[|kept|..];
  }

  lemma {:induction false} VictimsNeeded(s: Inner, cap: u64, k: int)
    requires s.Valid() && |TakeVictims(s, cap).0.order| < k <= |s.order|
    ensures Wrap(Sum(s.order[..k], s.sizes)) > cap
    decreases |s.order|
  {
    if k == |s.order| {
      assert s.order[..k] == s.order;
    } else {
      PopLast(s);
      VictimsSplitOrder(s, cap);
      var p := Pop(s, s.order[|s.order| - 1]);
      VictimsNeeded(p, cap, k);
      PopKeepsFrontSum(s, k);
    }
  }

  lemma PopKeepsFrontSum(s: Inner, k: int)
    requires s.Valid() && 0 <= k < |s.order|
    ensures var v := s.order[|s.order| - 1];
            && v in s.sizes
            && var p := Pop(s, v);
            && p.Valid() && k <= |p.order|
            && (forall x :: x in s.order[..k] ==> x in s.sizes)
            && (forall x :: x in p.order[..k] ==> x in p.sizes)
            && Sum(s.order[..k], s.sizes) == Sum(p.order[..k], p.sizes)
  {
    PopLast(s);
    var p := Pop(s, s.order[|s.order| - 1]);
    assert s.order[..k] == p.order[..k];
    SumFrame(p.order[..k], s.sizes, p.sizes);
  }

  /** One turn of the `take_victims` loop. */
  lemma VictimStep(s: Inner, cap: u64, acc: seq<string>)
    requires s.Valid() && s.total > cap && s.order != []
    ensures var k := |s.order| - 1;
            var v := s.order[k];
            && v in s.sizes
            && var p := Inner(s.order[..k], s.sizes - {v}, s.dirty, WrappingSub(s.total, s.sizes[v]));
               && p.Valid()
               && TakeVictims(s, cap).0 == TakeVictims(p, cap).0
               && acc + TakeVictims(s, cap).1 == (acc + [v]) + TakeVictims(p, cap).1
  {
    PopLast(s);
    var v := s.order[|s.order| - 1];
    var vs := TakeVictims(Pop(s, v), cap).1;
    assert acc + ([v] + vs) == (acc + [v]) + vs;
  }

  /** `take_victims` keeps a prefix of the access order untouched and takes the rest, oldest
      first. The kept prefix is within the cap, and every longer prefix was over it: no victim
      could have been spared. What is left of the books is still balanced. */
  lemma VictimsAreShortestTail(s: Inner, cap: u64)
    requires s.Valid()
    ensures var (r, vs) := TakeVictims(s, cap);
            && r.Valid() && r.total <= cap && r.dirty == s.dirty
            && |r.order| <= |s.order| && r.order == s.order[..|r.order|]
            && vs == Reversed(s.order[|r.order|..])
            && (forall n :: n in r.sizes ==> n in s.sizes && r.sizes[n] == s.sizes[n])
            && (forall n :: n in s.sizes <==> n in r.sizes || n in vs)
            && (forall n :: n in r.sizes ==> n !in vs)
            && (forall k :: |r.order| < k <= |s.order| ==> Wrap(Sum(s.order[..k], s.sizes)) > cap)
  {
    VictimsKeepBooks(s, cap);
    VictimsSplitOrder(s, cap);
    var (r, vs) := TakeVictims(s, cap);
    var tail := s.order[|r.order|..];
    assert s.order == r.order + tail;
    forall n ensures (n in vs <==> n in tail) && (n in tail ==> n !in r.order) {
      ReversedMembers(tail, n);
      if n in tail { DistinctSplit(r.order, tail, n); }
    }
    forall k | |r.order| < k <= |s.order| ensures Wrap(Sum(s.order[..k], s.sizes)) > cap {
      VictimsNeeded(s, cap, k);
    }
  }

  lemma {:induction false} DistinctSplit(a: seq<string>, b: seq<string>, n: string)
    requires Distinct(a + b) && n in b
    ensures n !in a
    decreases |b|
  {
    var k := |b| - 1;
    assert (a + b)[..|a| + k] == a + b[..k];
    assert b == b[..k] + [b[k]];
    if n == b[k] {
      assert n !in a + b[..k];
    } else {
      DistinctSplit(a, b[..k], n);
    }
  }

  lemma ReversedMembers(s: seq<string>, n: string)
    ensures n in Reversed(s) <==> n in s
  {
    if n in s {
      var i :| 0 <= i < |s| && s[i] == n;
      assert Reversed(s)[|s| - 1 - i] == n;
    }
  }

  // ---------------------------------------------------------------------------------
  // Runs: conservation and the access order over every sequence of critical sections
  // ---------------------------------------------------------------------------------

  datatype Op =
    | OpTouch(name: string)
    | OpRecordBlob(name: string, size: u64)
    | OpMarkChanged(name: string)
    | OpTakeDirty
    | OpSetSize(name: string, size: u64)
    | OpTakeVictims
    | OpDropMissing(missing: seq<string>)

  function Apply(s: Inner, cap: u64, op: Op): Inner
    requires forall n :: n in s.order ==> n in s.sizes
  {
    match op
    case OpTouch(n) => Touch(s, n)
    case OpRecordBlob(n, size) => RecordBlob(s, n, size)
    case OpMarkChanged(n) => MarkChanged(s, n)
    case OpTakeDirty => TakeDirty(s)
    case OpSetSize(n, size) => SetSize(s, n, size)
    case OpTakeVictims => TakeVictims(s, cap).0
    case OpDropMissing(missing) => DropMissing(s, missing)
  }

  lemma ApplyKeepsValid(s: Inner, cap: u64, op: Op)
    requires s.Valid()
    ensures Apply(s, cap, op).Valid()
  {
    match op
    case OpTouch(n) => TouchKeepsValid(s, n);
    case OpRecordBlob(n, size) => RecordBlobKeepsValid(s, n, size);
    case OpMarkChanged(n) => MarkChangedKeepsValid(s, n);
    case OpTakeDirty =>
    case OpSetSize(n, size) => SetSizeKeepsValid(s, n, size);
    case OpTakeVictims => VictimsAreShortestTail(s, cap);
    case OpDropMissing(missing) => DropMissingEffect(s, missing);
  }

  ghost function Run(s: Inner, cap: u64, ops: seq<Op>): (r: Inner)
    requires s.Valid()
    ensures r.Valid()
  {
    if ops == [] then s else
      var p := Run(s, cap, ops[..|ops| - 1]);
      ApplyKeepsValid(p, cap, ops[|ops| - 1]);
      Apply(p, cap, ops[|ops| - 1])
  }

  /** Conservation over every run: the total is the sum of the tracked sizes as long as that
      sum fits in a `u64`, and then no subtraction of a tracked size goes below zero. */
  lemma ExactWhileSumFits(s: Inner, cap: u64, ops: seq<Op>)
    requires s.Valid()
    ensures var r := Run(s, cap, ops);
            Sum(r.order, r.sizes) < U64_MOD ==>
              && r.total == Sum(r.order, r.sizes)
              && forall n :: n in r.sizes ==> r.sizes[n] <= r.total
  {
    var r := Run(s, cap, ops);
    forall n | n in r.sizes ensures r.sizes[n] <= Sum(r.order, r.sizes) {
      SumWithout(r.order, n, r.sizes);
    }
  }

  /** While the sums before and after fit, re-measuring and recording are plain integer
      arithmetic: the wrapping operators never wrap. */
  lemma NoWrapWhileSumsFit(s: Inner, n: string, size: u64)
    requires s.Valid() && Sum(s.order, s.sizes) < U64_MOD
    ensures n in s.sizes && Sum(s.order, s.sizes[n := size]) < U64_MOD ==>
              SetSize(s, n, size).total == s.total - s.sizes[n] + size
    ensures Sum(Promote(s.order, n), s.sizes[n := size]) < U64_MOD ==>
              RecordBlob(s, n, size).total == s.total - (if n in s.sizes then s.sizes[n] else 0) + size
  {
    PromoteSum(s, n, size);
    RecordBlobKeepsValid(s, n, size);
    SetSizeKeepsValid(s, n, size);
    if n in s.sizes { SetSizeSum(s, n, size); }
  }

  /** Does `op` count as a use of `n`? Measuring is not a use. */
  predicate Uses(op: Op, n: string) {
    (op.OpTouch? || op.OpRecordBlob? || op.OpMarkChanged?) && op.name == n
  }

  /** When `n` was last used: 1 + the index of the last use in `ops`, or, for a name never used
      since startup, minus its place in the startup order. Touching an untracked name counts
      here, although the code ignores it: becoming tracked is a later use. */
  function LastUse(initial: seq<string>, ops: seq<Op>, n: string): (t: int)
    ensures t <= |ops|
  {
    if ops != [] then
      if Uses(ops[|ops| - 1], n) then |ops| else LastUse(initial, ops[..|ops| - 1], n)
    else if initial == [] then 0
    else if initial[|initial| - 1] == n then 1 - |initial|
    else LastUse(initial[..|initial| - 1], [], n)
  }

  lemma {:induction false} InitialLastUse(initial: seq<string>, i: int)
    requires Distinct(initial) && 0 <= i < |initial|
    ensures LastUse(initial, [], initial[i]) == -i
    decreases |initial|
  {
    if i != |initial| - 1 {
      InitialLastUse(initial[..|initial| - 1], i);
    }
  }

  /** The access order of a run, read front to back, is strictly descending in last use. */
  ghost predicate NewestFirst(order: seq<string>, initial: seq<string>, ops: seq<Op>) {
    forall i, j :: 0 <= i < j < |order| ==>
      LastUse(initial, ops, order[i]) > LastUse(initial, ops, order[j])
  }

  lemma {:induction false} NewestFirstWithout(order: seq<string>, n: string, initial: seq<string>, ops: seq<Op>)
    requires NewestFirst(order, initial, ops)
    ensures NewestFirst(Without(order, n), initial, ops)
    decreases |order|
  {
    if order != [] {
      var k := |order| - 1;
      var front := order[..k];
      NewestFirstWithout(front, n, initial, ops);
      forall x | x in front ensures LastUse(initial, ops, x) > LastUse(initial, ops, order[k]) {
      }
      var w := Without(front, n);
      forall i | 0 <= i < |w| ensures w[i] in front { assert w[i] in w; }
    }
  }

  lemma {:induction false} NewestFirstDropMissing(s: Inner, missing: seq<string>, initial: seq<string>, ops: seq<Op>)
    requires NewestFirst(s.order, initial, ops)
    ensures NewestFirst(DropMissing(s, missing).order, initial, ops)
    decreases |missing|
  {
    if missing != [] {
      var n := missing[0];
      NewestFirstWithout(s.order, n, initial, ops);
      NewestFirstDropMissing(if n !in s.dirty && n in s.sizes then Pop(s, n) else s, missing[1..], initial, ops);
    }
  }

  /** A use brings its name to the front; nothing else reorders the survivors. */
  lemma StepNewestFirst(s: Inner, cap: u64, initial: seq<string>, ops: seq<Op>, op: Op)
    requires s.Valid() && NewestFirst(s.order, initial, ops)
    ensures NewestFirst(Apply(s, cap, op).order, initial, ops + [op])
  {
    match op
    case OpTouch(n) =>
      if n in s.sizes {
        PromotedNewestFirst(s.order, n, initial, ops, op);
      } else {
        UnusedNewestFirst(s.order, initial, ops, op);
      }
    case OpRecordBlob(n, size) => PromotedNewestFirst(s.order, n, initial, ops, op);
    case OpMarkChanged(n) => PromotedNewestFirst(s.order, n, initial, ops, op);
    case OpTakeDirty => UnusedNewestFirst(s.order, initial, ops, op);
    case OpSetSize(n, size) => UnusedNewestFirst(s.order, initial, ops, op);
    case OpTakeVictims =>
      VictimsAreShortestTail(s, cap);
      UnusedNewestFirst(TakeVictims(s, cap).0.order, initial, ops, op);
    case OpDropMissing(missing) =>
      NewestFirstDropMissing(s, missing, initial, ops);
      UnusedNewestFirst(DropMissing(s, missing).order, initial, ops, op);
  }

  lemma UnusedNewestFirst(order: seq<string>, initial: seq<string>, ops: seq<Op>, op: Op)
    requires NewestFirst(order, initial, ops) && forall x :: x in order ==> !Uses(op, x)
    ensures NewestFirst(order, initial, ops + [op])
  {
    assert (ops + [op])[..|ops|] == ops;
    forall i | 0 <= i < |order| ensures LastUse(initial, ops + [op], order[i]) == LastUse(initial, ops, order[i]) {
      assert order[i] in order;
    }
  }

  lemma PromotedNewestFirst(order: seq<string>, n: string, initial: seq<string>, ops: seq<Op>, op: Op)
    requires NewestFirst(order, initial, ops) && Uses(op, n)
    ensures NewestFirst(Promote(order, n), initial, ops + [op])
  {
    var ops' := ops + [op];
    assert ops'[..|ops|] == ops;
    NewestFirstWithout(order, n, initial, ops);
    var w := Without(order, n);
    forall i | 0 <= i < |w| ensures LastUse(initial, ops', w[i]) == LastUse(initial, ops, w[i]) {
      assert w[i] in w;
    }
  }

  /** The list order refines timestamps over every run from startup. */
  lemma {:induction false} LruOrderIsLastUse(s: Inner, cap: u64, ops: seq<Op>)
    requires s.Valid()
    ensures NewestFirst(Run(s, cap, ops).order, s.order, ops)
    decreases |ops|
  {
    if ops == [] {
      forall i | 0 <= i < |s.order| ensures LastUse(s.order, [], s.order[i]) == -i {
        InitialLastUse(s.order, i);
      }
    } else {
      var k := |ops| - 1;
      LruOrderIsLastUse(s, cap, ops[..k]);
      StepNewestFirst(Run(s, cap, ops[..k]), cap, s.order, ops[..k], ops[k]);
      assert ops[..k] + [ops[k]] == ops;
    }
  }

  // ---------------------------------------------------------------------------------
  // Startup
  // ---------------------------------------------------------------------------------

  datatype Scanned = Scanned(name: string, size: u64, mtime: int)

  ghost predicate DistinctNames(es: seq<Scanned>) {
    forall i, j :: 0 <= i < j < |es| ==> es[i].name != es[j].name
  }

  ghost predicate OldestFirst(es: seq<Scanned>) {
    forall i, j :: 0 <= i < j < |es| ==> es[i].mtime <= es[j].mtime
  }

  /** The stable sort by mtime: `e` goes after every entry that is not newer. */
  function InsertByMtime(es: seq<Scanned>, e: Scanned): (r: seq<Scanned>)
    ensures multiset(r) == multiset(es) + multiset{e}
  {
    if es == [] || es[|es| - 1].mtime <= e.mtime then
      es + [e]
    else
      assert es == es[..|es| - 1] + [es[|es| - 1]];
      InsertByMtime(es[..|es| - 1], e) + [es[|es| - 1]]
  }

  lemma {:induction false} InsertKeepsOldestFirst(es: seq<Scanned>, e: Scanned)
    requires OldestFirst(es)
    ensures OldestFirst(InsertByMtime(es, e))
    decreases |es|
  {
    if es != [] && es[|es| - 1].mtime > e.mtime {
      var front := es[..|es| - 1];
      InsertKeepsOldestFirst(front, e);
      var r := InsertByMtime(front, e);
      forall i | 0 <= i < |r| ensures r[i].mtime <= es[|es| - 1].mtime {
        assert r[i] in multiset(r);
        assert r[i] == e || r[i] in front;
      }
    }
  }

  function SortByMtime(es: seq<Scanned>): (r: seq<Scanned>)
    ensures multiset(r) == multiset(es)
    ensures OldestFirst(r)
  {
    if es == [] then [] else
      var sorted := SortByMtime(es[..|es| - 1]);
      assert es == es[..|es| - 1] + [es[|es| - 1]];
      InsertKeepsOldestFirst(sorted, es[|es| - 1]);
      InsertByMtime(sorted, es[|es| - 1])
  }

  /** The entries of one mtime, in their order. */
  function OfTime(es: seq<Scanned>, t: int): seq<Scanned> {
    if es == [] then [] else
      OfTime(es[..|es| - 1], t) + if es[|es| - 1].mtime == t then [es[|es| - 1]] else []
  }

  lemma OfTimeSnoc(es: seq<Scanned>, e: Scanned, t: int)
    ensures OfTime(es + [e], t) == OfTime(es, t) + if e.mtime == t then [e] else []
  {
    assert (es + [e])[..|es|] == es;
  }

  lemma {:induction false} InsertIsStable(es: seq<Scanned>, e: Scanned, t: int)
    ensures OfTime(InsertByMtime(es, e), t) == OfTime(es + [e], t)
    decreases |es|
  {
    if es != [] && es[|es| - 1].mtime > e.mtime {
      InsertIsStable(es[..|es| - 1], e, t);
      InsertBefore(es, e, t, InsertByMtime(es[..|es| - 1], e));
    }
  }

  lemma InsertBefore(es: seq<Scanned>, e: Scanned, t: int, r: seq<Scanned>)
    requires es != [] && es[|es| - 1].mtime > e.mtime && OfTime(r, t) == OfTime(es[..|es| - 1] + [e], t)
    ensures OfTime(r + [es[|es| - 1]], t) == OfTime(es + [e], t)
  {
    OfTimeSnoc(r, es[|es| - 1], t);
    OfTimeSnoc(es, e, t);
    OfTimeSnoc(es[..|es| - 1], e, t);
  }

  /** Entries of equal mtime keep the order in which they were scanned. */
  lemma {:induction false} SortIsStable(es: seq<Scanned>, t: int)
    ensures OfTime(SortByMtime(es), t) == OfTime(es, t)
    decreases |es|
  {
    if es != [] {
      var front, last := es[..|es| - 1], es[|es| - 1];
      SortIsStable(front, t);
      InsertIsStable(SortByMtime(front), last, t);
      OfTimeSnoc(SortByMtime(front), last, t);
    }
  }

  function Put(s: Inner, e: Scanned): Inner {
    s.(order := Promote(s.order, e.name), sizes := s.sizes[e.name := e.size], total := WrappingAdd(s.total, e.size))
  }

  function PutAll(s: Inner, es: seq<Scanned>): Inner
  {
    if es == [] then s else Put(PutAll(s, es[..|es| - 1]), es[|es| - 1])
  }

  /** One turn of the loop that builds the index. */
  lemma PutNext(es: seq<Scanned>, i: nat)
    requires i < |es|
    ensures PutAll(EmptyInner(), es[..i + 1]) == Put(PutAll(EmptyInner(), es[..i]), es[i])
  {
    assert es[..i + 1][..i] == es[..i];
  }

  function EmptyInner(): Inner { Inner([], map[], {}, 0) }

  /** Scanned names from the last entry to the first. */
  function NamesFromLast(es: seq<Scanned>): (r: seq<string>)
    ensures |r| == |es| && forall i :: 0 <= i < |es| ==> r[i] == es[|es| - 1 - i].name
  {
    if es == [] then [] else [es[|es| - 1].name] + NamesFromLast(es[..|es| - 1])
  }

  /** The index a scan produces: balanced books, every scanned entry and no other at its
      scanned size, and the last entry (the newest mtime) at the most-recently-used end. */
  lemma {:induction false} StartupIndex(es: seq<Scanned>)
    requires DistinctNames(es)
    ensures var r := PutAll(EmptyInner(), es);
            && r.Valid() && r.dirty == {}
            && r.order == NamesFromLast(es)
            && forall e :: e in es ==> e.name in r.sizes && r.sizes[e.name] == e.size
    decreases |es|
  {
    if es != [] {
      var front, e := es[..|es| - 1], es[|es| - 1];
      StartupIndex(front);
      var p := PutAll(EmptyInner(), front);
      LastNameIsNew(es);
      PutKeepsValid(p, e);
    }
  }

  lemma LastNameIsNew(es: seq<Scanned>)
    requires DistinctNames(es) && es != []
    ensures var front, e := es[..|es| - 1], es[|es| - 1];
            && e.name !in NamesFromLast(front)
            && (forall x :: x in front ==> x.name != e.name)
            && (forall x :: x in es <==> x in front || x == e)
  {
    assert es == es[..|es| - 1] + [es[|es| - 1]];
  }

  lemma PutKeepsValid(p: Inner, e: Scanned)
    requires p.Valid() && e.name !in p.order
    ensures Put(p, e).Valid()
  {
    PromoteSum(p, e.name, e.size);
    WrapShift(Sum(p.order, p.sizes), 0, e.size);
  }

  lemma SortKeepsDistinctNames(es: seq<Scanned>, r: seq<Scanned>)
    requires DistinctNames(es) && multiset(r) == multiset(es)
    ensures DistinctNames(r)
  {
    forall i, j | 0 <= i < j < |r| ensures r[i].name != r[j].name {
      if r[i].name == r[j].name {
        assert r[i] in multiset(r) && r[j] in multiset(r);
        assert r[i] in es && r[j] in es;
        var a :| 0 <= a < |es| && es[a] == r[i];
        var b :| 0 <= b < |es| && es[b] == r[j];
        assert a == b;
        MultiplicityOfPair(r, i, j);
        MultiplicityOfDistinct(es, a);
      }
    }
  }

  lemma MultiplicityOfPair<T>(s: seq<T>, i: nat, j: nat)
    requires i < j < |s| && s[i] == s[j]
    ensures multiset(s)[s[i]] >= 2
  {
    assert s == s[..j] + [s[j]] + s[j + 1..];
    assert s[i] in s[..j];
    assert multiset(s) == multiset(s[..j]) + multiset{s[j]} + multiset(s[j + 1..]);
  }

  lemma MultiplicityOfDistinct(es: seq<Scanned>, a: nat)
    requires DistinctNames(es) && a < |es|
    ensures multiset(es)[es[a]] == 1
  {
    assert es == es[..a] + [es[a]] + es[a + 1..];
    assert multiset(es) == multiset(es[..a]) + multiset{es[a]} + multiset(es[a + 1..]);
    assert es[a] !in es[..a] && es[a] !in es[a + 1..];
  }

  lemma {:induction false} TouchKeepsLength(order: seq<string>, n: string)
    requires Distinct(order) && n in order
    ensures |Promote(order, n)| == |order|
    decreases |order|
  {
    var k := |order| - 1;
    assert order == order[..k] + [order[k]];
    if order[k] == n {
      assert n !in order[..k];
    } else {
      TouchKeepsLength(order[..k], n);
    }
  }
}
