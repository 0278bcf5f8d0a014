/** Serving packs (src/git.rs: `upload_pack_rpc`, `TimedReader`, `reap_upload_pack`): a semaphore
    permit that lives as long as the child process, a one-shot channel that tells the reaper
    whether the client saw the end of the stream, and a serve duration recorded once per stream. */
module UploadPack {
  import opened Common

  /** The one-shot channel from the stream to the reaper. */
  datatype Served = Unsent | Sent | Dropped

  /** The stream wrapper: whether its recorder is still armed, its end of the channel, and how
      many durations it has observed. */
  datatype Reader = Reader(armed: bool, served: Served, observed: nat)

  /** Results of polling the child's stdout: bytes, nothing yet, an error, or end of file. */
  datatype Poll = Data | Pending | Failed | Eof

  function Record(r: Reader): Reader {
    if r.armed then r.(armed := false, observed := r.observed + 1) else r
  }

  function AfterPoll(r: Reader, poll: Poll): Reader {
    if poll.Eof? then Record(r.(served := if r.served.Unsent? then Sent else r.served)) else r
  }

  function AfterDrop(r: Reader): Reader {
    var q := Record(r);
    q.(served := if q.served.Unsent? then Dropped else q.served)
  }

  function AfterPolls(r: Reader, polls: seq<Poll>): Reader
    decreases |polls|
  {
    if polls == [] then r else AfterPolls(AfterPoll(r, polls[0]), polls[1..])
  }

  function NewReader(): Reader { Reader(true, Unsent, 0) }

  /** The stream of `upload_pack_rpc`, whose two options are taken once. */
  class TimedReader {
    var recorder: bool
    var served: bool
    var channel: Served
    var observed: nat

    ghost predicate Valid() reads this { served <==> channel.Unsent? }

    function View(): Reader reads this { Reader(recorder, channel, observed) }

    constructor ()
      ensures Valid() && View() == NewReader()
    {
      recorder, served, channel, observed := true, true, Unsent, 0;
    }

    method RecordOnce()
      modifies this`recorder, this`observed
      ensures View() == Record(old(View()))
    {
      if recorder {
        recorder := false;
        observed := observed + 1;
      }
    }

    method PollRead(poll: Poll)
      requires Valid()
      modifies this
      ensures Valid() && View() == AfterPoll(old(View()), poll)
    {
      if poll.Eof? {
        if served {
          served := false;
          channel := Sent;
        }
        RecordOnce();
      }
    }

    /** `Drop`: the explicit body records; dropping the fields closes an unsent channel. */
    method Dispose()
      requires Valid()
      modifies this
      ensures Valid() && View() == AfterDrop(old(View()))
    {
      RecordOnce();
      if served {
        served := false;
        channel := Dropped;
      }
    }
  }

  lemma {:induction false} PollsFrom(r: Reader, polls: seq<Poll>)
    requires r.armed <==> r.observed == 0
    requires r.observed <= 1 && (r.armed <==> r.served.Unsent?) && !r.served.Dropped?
    ensures var q := AfterPolls(r, polls);
            && (q.armed <==> q.observed == 0) && q.observed <= 1
            && (q.served.Unsent? <==> r.served.Unsent? && Eof !in polls)
            && (q.armed <==> q.served.Unsent?) && !q.served.Dropped?
    decreases |polls|
  {
    if polls != [] {
      assert polls == [polls[0]] + polls[1..];
      PollsFrom(AfterPoll(r, polls[0]), polls[1..]);
    }
  }

  /** Over any polls followed by the drop, exactly one duration is recorded, and the reaper is told
      the client is done exactly when one of the polls reached end of file. */
  lemma RecordedExactlyOnce(polls: seq<Poll>)
    ensures var r := AfterDrop(AfterPolls(NewReader(), polls));
            && r.observed == 1
            && r.served == (if Eof in polls then Sent else Dropped)
  {
    PollsFrom(NewReader(), polls);
  }

  // ---------------------------------------------------------------------------------
  // Requests, children and reapers sharing the semaphore
  // ---------------------------------------------------------------------------------

  datatype Client = AwaitingPermit | Spawning | Writing | Streaming | Gone

  datatype Child = NoChild | Live | Exited | Reaped

  datatype Reaper = NoReaper | Selecting | Draining | Killing | Done

  datatype Conn = Conn(
    client: Client, child: Child, reaper: Reaper, permit: bool, reader: Reader, sawEof: bool, killed: bool)

  datatype State = State(available: nat, conns: map<nat, Conn>)

  datatype Step =
    | Arrive(id: nat)
    | Acquire(id: nat)
    | SpawnFail(id: nat)
    | Spawn(id: nat)
    | WriteOk(id: nat)
    | PollStream(id: nat, poll: Poll)
    | DropClient(id: nat)          // answered, failed or hung up
    | ChildExits(id: nat)
    | ReapSent(id: nat)            // the reaper learns that the client is done
    | ReapKill(id: nat)            // the reaper learns that the client is gone
    | Reap(id: nat)                // `wait` returns; the permit goes with the reaper

  ghost predicate Enabled(cap: nat, s: State, step: Step) {
    (step.id in s.conns <==> !step.Arrive?) &&
    (step.Arrive? ||
      var c := s.conns[step.id];
      match step
      case Arrive(id) => true
      case Acquire(id) => c.client.AwaitingPermit? && (cap > 0 ==> s.available > 0)
      case SpawnFail(id) => c.client.Spawning?
      case Spawn(id) => c.client.Spawning?
      case WriteOk(id) => c.client.Writing?
      case PollStream(id, poll) => c.client.Streaming?
      case DropClient(id) => c.client.AwaitingPermit? || c.client.Writing? || c.client.Streaming?
      case ChildExits(id) => c.child.Live?
      case ReapSent(id) => c.reaper.Selecting? && c.reader.served.Sent?
      case ReapKill(id) => c.reaper.Selecting? && c.reader.served.Dropped?
      case Reap(id) => (c.reaper.Selecting? || c.reaper.Draining? || c.reaper.Killing?) && c.child.Exited?)
  }

  ghost function NextConn(cap: nat, c: Conn, step: Step): Conn {
    match step
    case Arrive(id) => Conn(AwaitingPermit, NoChild, NoReaper, false, NewReader(), false, false)
    case Acquire(id) => c.(client := Spawning, permit := cap > 0)
    case SpawnFail(id) => c.(client := Gone, permit := false)
    case Spawn(id) => c.(client := Writing, child := Live, reaper := Selecting)
    case WriteOk(id) => c.(client := Streaming)
    case PollStream(id, poll) => c.(reader := AfterPoll(c.reader, poll), sawEof := c.sawEof || poll.Eof?)
    case DropClient(id) =>
      c.(client := Gone,
         reader := if c.client.Streaming? then AfterDrop(c.reader)
                   else if c.client.Writing? then c.reader.(served := Dropped)
                   else c.reader)
    case ChildExits(id) => c.(child := Exited)
    case ReapSent(id) => c.(reaper := Draining)
    case ReapKill(id) => c.(reaper := Killing, killed := true)
    case Reap(id) => c.(child := Reaped, reaper := Done, permit := false)
  }

  ghost function Next(cap: nat, s: State, step: Step): State
    requires Enabled(cap, s, step)
  {
    var blank := Conn(AwaitingPermit, NoChild, NoReaper, false, NewReader(), false, false);
    var c := if step.id in s.conns then s.conns[step.id] else blank;
    var c' := NextConn(cap, c, step);
    State(
      if !c.permit && c'.permit && s.available > 0 then s.available - 1
      else if c.permit && !c'.permit then s.available + 1
      else s.available,
      s.conns[step.id := c'])
  }

  function Holders(s: State): set<nat> { set id | id in s.conns && s.conns[id].permit }

  /** Children that have started and have not been waited for. */
  function Unreaped(s: State): set<nat> {
    set id | id in s.conns && (s.conns[id].child.Live? || s.conns[id].child.Exited?)
  }

  ghost predicate ConnInv(cap: nat, c: Conn) {
    && (c.permit ==> cap > 0)
    && (cap > 0 && (c.client.Spawning? || c.child.Live? || c.child.Exited?) ==> c.permit)
    && (c.child.Live? || c.child.Exited? ==> c.reaper.Selecting? || c.reaper.Draining? || c.reaper.Killing?)
    && (c.client.AwaitingPermit? || c.client.Spawning? ==> c.child.NoChild? && c.reaper.NoReaper?)
    && (c.client.AwaitingPermit? ==> !c.permit)
    && (c.permit && c.reaper.NoReaper? ==> c.client.Spawning?)
    && (c.permit ==> !c.reaper.Done?)
    && (c.reaper.NoReaper? ==> c.child.NoChild? && !c.killed)
    // the channel and the recorder
    && (c.sawEof <==> c.reader.served.Sent?) && (c.sawEof ==> c.reader.observed == 1)
    && c.reader.observed <= 1 && (c.reader.armed <==> c.reader.observed == 0)
    && (c.client.AwaitingPermit? || c.client.Spawning? || c.client.Writing? ==> c.reader == NewReader())
    && (c.client.Streaming? ==> (c.reader.armed <==> c.reader.served.Unsent?) && !c.reader.served.Dropped?)
    && (c.killed ==> c.reader.served.Dropped?)
    // what the reaper has made of it, and that it will hear of every client that goes
    && (c.reaper.Draining? ==> c.sawEof) && (c.reaper.Killing? ==> c.killed)
    && (c.killed ==> c.reaper.Killing? || c.reaper.Done?)
    && (c.client.Gone? && !c.reaper.NoReaper? ==> !c.reader.served.Unsent?)
    && (c.client.Writing? || c.client.Streaming? ==> !c.reaper.NoReaper? && !c.child.NoChild?)
    && (c.reaper.Done? <==> c.child.Reaped?) && (c.reaper.NoReaper? <==> c.child.NoChild?)
  }

  ghost predicate Inv(cap: nat, s: State) {
    && (cap > 0 ==> s.available + |Holders(s)| == cap)
    && forall id :: id in s.conns ==> ConnInv(cap, s.conns[id])
  }

  lemma ConnStep(cap: nat, s: State, step: Step)
    requires Enabled(cap, s, step)
    requires step.id in s.conns ==> ConnInv(cap, s.conns[step.id])
    ensures ConnInv(cap, Next(cap, s, step).conns[step.id])
  {
  }

  lemma PermitsBalance(cap: nat, s: State, step: Step)
    requires cap > 0 && Enabled(cap, s, step) && s.available + |Holders(s)| == cap
    requires step.id in s.conns ==> ConnInv(cap, s.conns[step.id])
    ensures var s' := Next(cap, s, step); s'.available + |Holders(s')| == cap
  {
    var s' := Next(cap, s, step);
    var id := step.id;
    if s'.conns[id].permit && id !in Holders(s) {
      assert Holders(s') == Holders(s) + {id};
    } else if !s'.conns[id].permit && id in Holders(s) {
      assert Holders(s') == Holders(s) - {id};
    } else {
      assert Holders(s') == Holders(s);
    }
  }

  lemma StepKeepsInv(cap: nat, s: State, step: Step)
    requires Inv(cap, s) && Enabled(cap, s, step)
    ensures Inv(cap, Next(cap, s, step))
  {
    ConnStep(cap, s, step);
    if cap > 0 { PermitsBalance(cap, s, step); }
  }

  ghost function After(cap: nat, s: State, steps: seq<Step>): RunResult<State>
    decreases |steps|
  {
    if steps == [] then Reached(s)
    else if Enabled(cap, s, steps[0]) then After(cap, Next(cap, s, steps[0]), steps[1..])
    else Blocked
  }

  function Init(cap: nat): State { State(cap, map[]) }

  lemma {:induction false} InvAlways(cap: nat, s: State, steps: seq<Step>)
    requires Inv(cap, s) && After(cap, s, steps).Reached?
    ensures Inv(cap, After(cap, s, steps).state)
    decreases |steps|
  {
    if steps != [] {
      StepKeepsInv(cap, s, steps[0]);
      InvAlways(cap, Next(cap, s, steps[0]), steps[1..]);
    }
  }

  /** The cap covers whole process lifetimes: in every run, permits available and held add up to
      the cap, and no more `upload-pack` children than the cap are waiting to be reaped. */
  lemma CapCoversUnreapedChildren(cap: nat, steps: seq<Step>)
    requires cap > 0 && After(cap, Init(cap), steps).Reached?
    ensures var s := After(cap, Init(cap), steps).state;
            && s.available + |Holders(s)| == cap
            && |Unreaped(s)| <= cap
  {
    assert Holders(Init(cap)) == {};
    InvAlways(cap, Init(cap), steps);
    var s := After(cap, Init(cap), steps).state;
    assert Unreaped(s) <= Holders(s);
    SubsetSize(Unreaped(s), Holders(s));
  }

  /** A child is killed only for a client that went away before end of file: in every run, one that
      saw the end is never killed. And no stream ever records a second duration. */
  lemma KilledOnlyBeforeEof(cap: nat, steps: seq<Step>, id: nat)
    requires After(cap, Init(cap), steps).Reached?
    ensures var s := After(cap, Init(cap), steps).state;
            id in s.conns ==>
              && (s.conns[id].killed ==> s.conns[id].client.Gone? && !s.conns[id].sawEof)
              && s.conns[id].reader.observed <= 1
              && (s.conns[id].sawEof ==> s.conns[id].reader.observed == 1)
  {
    assert Holders(Init(cap)) == {};
    InvAlways(cap, Init(cap), steps);
  }

  // ---------------------------------------------------------------------------------
  // What happened, in terms of the steps taken
  // ---------------------------------------------------------------------------------

  ghost predicate Killed(s: State, id: nat) { id in s.conns && s.conns[id].killed }

  ghost predicate SawEof(s: State, id: nat) { id in s.conns && s.conns[id].sawEof }

  /** A stream was opened to the client. */
  ghost predicate Streamed(s: State, id: nat) {
    id in s.conns && (s.conns[id].client.Streaming? || !s.conns[id].reader.armed)
  }

  /** Its reaper is past the select: it was told about the client, or found the child gone. */
  ghost predicate PastSelect(s: State, id: nat) {
    id in s.conns && (s.conns[id].reaper.Draining? || s.conns[id].reaper.Killing? || s.conns[id].reaper.Done?)
  }

  lemma StepHistory(cap: nat, s: State, step: Step, id: nat)
    requires Inv(cap, s) && Enabled(cap, s, step)
    ensures var s' := Next(cap, s, step);
            && (Killed(s', id) <==> Killed(s, id) || step == ReapKill(id))
            && (SawEof(s', id) <==> SawEof(s, id) || step == PollStream(id, Eof))
            && (Streamed(s', id) <==> Streamed(s, id) || step == WriteOk(id))
            && (PastSelect(s', id) <==> PastSelect(s, id) || step in {ReapSent(id), ReapKill(id), Reap(id)})
  {
    if step.id == id && id in s.conns { assert ConnInv(cap, s.conns[id]); }
  }

  lemma {:induction false} RunHistory(cap: nat, s: State, steps: seq<Step>, id: nat)
    requires Inv(cap, s) && After(cap, s, steps).Reached?
    ensures var r := After(cap, s, steps).state;
            && (Killed(r, id) <==> Killed(s, id) || ReapKill(id) in steps)
            && (SawEof(r, id) <==> SawEof(s, id) || PollStream(id, Eof) in steps)
            && (Streamed(r, id) <==> Streamed(s, id) || WriteOk(id) in steps)
            && (PastSelect(r, id) <==>
                  PastSelect(s, id) || ReapSent(id) in steps || ReapKill(id) in steps || Reap(id) in steps)
    decreases |steps|
  {
    if steps != [] {
      StepHistory(cap, s, steps[0], id);
      StepKeepsInv(cap, s, steps[0]);
      RunHistory(cap, Next(cap, s, steps[0]), steps[1..], id);
      assert steps == [steps[0]] + steps[1..];
    }
  }

  /** The reaper kills exactly when it is told that the client is gone, drains only for a client that
      saw the end, and hears of every client that goes. A stream that was opened has recorded one
      duration once its client is gone, and one that was not has recorded none. */
  lemma ReaperActsExactly(cap: nat, steps: seq<Step>, id: nat)
    requires After(cap, Init(cap), steps).Reached?
    ensures var s := After(cap, Init(cap), steps).state;
            id in s.conns ==>
              var c := s.conns[id];
              && (c.killed <==> ReapKill(id) in steps)
              && (c.reaper.Killing? ==> ReapKill(id) in steps)
              && (c.reaper.Draining? ==> PollStream(id, Eof) in steps)
              && (c.reaper.Selecting? ==> ReapSent(id) !in steps && ReapKill(id) !in steps)
              && (c.client.Gone? && c.reaper.Selecting? && c.child.Live? ==>
                    if PollStream(id, Eof) in steps then Enabled(cap, s, ReapSent(id)) && !Enabled(cap, s, ReapKill(id))
                    else Enabled(cap, s, ReapKill(id)) && !Enabled(cap, s, ReapSent(id)))
              && (c.client.Gone? ==> c.reader.observed == if WriteOk(id) in steps then 1 else 0)
  {
    assert Holders(Init(cap)) == {};
    InvAlways(cap, Init(cap), steps);
    RunHistory(cap, Init(cap), steps, id);
    var s := After(cap, Init(cap), steps).state;
    assert id in s.conns ==> ConnInv(cap, s.conns[id]);
  }

  // ---------------------------------------------------------------------------------
  // Every permit can come back
  // ---------------------------------------------------------------------------------

  /** Nothing of the connection is left but its record. */
  ghost predicate Over(c: Conn) { c.client.Gone? && !c.permit && (c.child.NoChild? || c.child.Reaped?) }

  /** Some run from `s` leads to `r`, in which only connection `id` has moved. */
  ghost predicate Moves(cap: nat, s: State, r: State, id: nat) {
    && (exists steps :: After(cap, s, steps) == Reached(r))
    && s.conns.Keys == r.conns.Keys && forall k :: k in s.conns && k != id ==> r.conns[k] == s.conns[k]
  }

  lemma {:induction false} Extend(cap: nat, s: State, steps: seq<Step>, r: State, step: Step)
    requires After(cap, s, steps) == Reached(r) && Enabled(cap, r, step)
    ensures After(cap, s, steps + [step]) == Reached(Next(cap, r, step))
    decreases |steps|
  {
    var longer := steps + [step];
    if steps == [] {
      assert longer[1..] == [];
    } else {
      assert longer[1..] == steps[1..] + [step];
      Extend(cap, Next(cap, s, steps[0]), steps[1..], r, step);
    }
  }

  lemma Move(cap: nat, s: State, r: State, step: Step) returns (r': State)
    requires Moves(cap, s, r, step.id) && Inv(cap, r) && Enabled(cap, r, step) && !step.Arrive?
    ensures r' == Next(cap, r, step) && Moves(cap, s, r', step.id) && Inv(cap, r')
  {
    var steps :| After(cap, s, steps) == Reached(r);
    Extend(cap, s, steps, r, step);
    StepKeepsInv(cap, r, step);
    r' := Next(cap, r, step);
  }

  /** The client can go at any time. */
  lemma ClientGoes(cap: nat, s: State, id: nat) returns (r: State)
    requires Inv(cap, s) && id in s.conns
    ensures Moves(cap, s, r, id) && Inv(cap, r) && r.conns[id].client.Gone?
  {
    assert After(cap, s, []) == Reached(s);
    r := s;
    if s.conns[id].client.Spawning? {
      r := Move(cap, s, r, SpawnFail(id));
    } else if !s.conns[id].client.Gone? {
      r := Move(cap, s, r, DropClient(id));
    }
  }

  /** Then its reaper can see the child off. */
  lemma ChildGoes(cap: nat, s: State, r0: State, id: nat) returns (r: State)
    requires Moves(cap, s, r0, id) && Inv(cap, r0) && id in r0.conns && r0.conns[id].client.Gone?
    ensures Moves(cap, s, r, id) && Inv(cap, r) && Over(r.conns[id])
  {
    r := r0;
    assert ConnInv(cap, r.conns[id]);
    if r.conns[id].child.Live? { r := Move(cap, s, r, ChildExits(id)); }
    assert ConnInv(cap, r.conns[id]);
    if r.conns[id].child.Exited? { r := Move(cap, s, r, Reap(id)); }
    assert ConnInv(cap, r.conns[id]);
  }

  /** In every run, from wherever it stands, all connections can come to their end, with every child
      reaped and every permit back. */
  lemma {:induction false} AllPermitsCanReturn(cap: nat, s: State, ids: set<nat>) returns (r: State)
    requires Inv(cap, s) && ids <= s.conns.Keys && forall id :: id in s.conns && id !in ids ==> Over(s.conns[id])
    ensures exists steps :: After(cap, s, steps) == Reached(r)
    ensures Inv(cap, r) && Unreaped(r) == {} && Holders(r) == {} && (cap > 0 ==> r.available == cap)
    decreases |ids|
  {
    if ids == {} {
      r := s;
      assert After(cap, s, []) == Reached(s);
      assert Holders(r) == {} && Unreaped(r) == {};
    } else {
      var id :| id in ids;
      var m := CanEnd(cap, s, id);
      r := AllPermitsCanReturn(cap, m, ids - {id});
      Chain(cap, s, m, r);
    }
  }

  lemma CanEnd(cap: nat, s: State, id: nat) returns (r: State)
    requires Inv(cap, s) && id in s.conns
    ensures Moves(cap, s, r, id) && Inv(cap, r) && Over(r.conns[id])
  {
    r := ClientGoes(cap, s, id);
    r := ChildGoes(cap, s, r, id);
  }

  lemma Chain(cap: nat, s: State, m: State, r: State)
    requires exists steps :: After(cap, s, steps) == Reached(m)
    requires exists steps :: After(cap, m, steps) == Reached(r)
    ensures exists steps :: After(cap, s, steps) == Reached(r)
  {
    var a :| After(cap, s, a) == Reached(m);
    var b :| After(cap, m, b) == Reached(r);
    Concat(cap, s, a, b);
  }

  lemma {:induction false} Concat(cap: nat, s: State, a: seq<Step>, b: seq<Step>)
    requires After(cap, s, a).Reached?
    ensures After(cap, s, a + b) == After(cap, After(cap, s, a).state, b)
    decreases |a|
  {
    if a == [] {
      assert a + b == b;
    } else {
      assert (a + b)[1..] == a[1..] + b;
      Concat(cap, Next(cap, s, a[0]), a[1..], b);
    }
  }

  // ---------------------------------------------------------------------------------
  // Every pack can be served
  // ---------------------------------------------------------------------------------

  /** A request waits exactly while the cap's permits are all held; with no cap it never does. */
  lemma WaitsExactly(cap: nat, s: State, id: nat)
    requires Inv(cap, s) && id in s.conns && s.conns[id].client.AwaitingPermit?
    ensures Enabled(cap, s, Acquire(id)) <==> cap == 0 || |Holders(s)| < cap
  {
  }

  /** From the queue to an open stream, under a permit if there is a cap. */
  lemma CanStream(cap: nat, s: State, id: nat) returns (r: State)
    requires Inv(cap, s) && id in s.conns && s.conns[id].client.AwaitingPermit?
    requires cap == 0 || |Holders(s)| < cap
    ensures Moves(cap, s, r, id) && Inv(cap, r)
    ensures var c := r.conns[id];
            && c.client.Streaming? && c.child.Live? && c.reaper.Selecting? && c.reader == NewReader() && !c.sawEof
            && (c.permit <==> cap > 0)
  {
    assert After(cap, s, []) == Reached(s);
    r := Move(cap, s, s, Acquire(id));
    r := Move(cap, s, r, Spawn(id));
    r := Move(cap, s, r, WriteOk(id));
    assert ConnInv(cap, r.conns[id]);
  }

  /** Any polls can follow, and the stream is then what they make of it. */
  lemma {:induction false} CanPoll(cap: nat, s: State, r0: State, id: nat, polls: seq<Poll>) returns (r: State)
    requires Moves(cap, s, r0, id) && Inv(cap, r0) && id in r0.conns && r0.conns[id].client.Streaming?
    ensures Moves(cap, s, r, id) && Inv(cap, r) && id in r.conns
    ensures var c := r0.conns[id];
            r.conns[id] == c.(reader := AfterPolls(c.reader, polls), sawEof := c.sawEof || Eof in polls)
    decreases |polls|
  {
    r := r0;
    if polls != [] {
      assert polls == [polls[0]] + polls[1..];
      r := Move(cap, s, r, PollStream(id, polls[0]));
      r := CanPoll(cap, s, r, id, polls[1..]);
    }
  }

  /** Once the client is done, or gone, the reaper learns which, and sees the child off. */
  lemma CanBeReaped(cap: nat, s: State, r0: State, id: nat) returns (r: State)
    requires Moves(cap, s, r0, id) && Inv(cap, r0) && id in r0.conns
    requires var c := r0.conns[id]; c.client.Streaming? && c.child.Live? && c.reaper.Selecting?
    ensures Moves(cap, s, r, id) && Inv(cap, r) && id in r.conns && Over(r.conns[id])
    ensures r.conns[id].reader == AfterDrop(r0.conns[id].reader) && (r.conns[id].killed <==> !r0.conns[id].sawEof)
  {
    assert ConnInv(cap, r0.conns[id]);
    r := Move(cap, s, r0, DropClient(id));
    if r0.conns[id].sawEof {
      r := Move(cap, s, r, ReapSent(id));
    } else {
      r := Move(cap, s, r, ReapKill(id));
    }
    r := Move(cap, s, r, ChildExits(id));
    r := Move(cap, s, r, Reap(id));
    assert ConnInv(cap, r.conns[id]);
  }

  /** With a permit to be had, and for any polls of the stream, there is a run that serves the request
      and ends it with the permit back: one duration recorded, and the child killed exactly if no poll
      reached end of file. */
  lemma EveryPackCanBeServed(cap: nat, s: State, id: nat, polls: seq<Poll>) returns (r: State)
    requires Inv(cap, s) && id in s.conns && s.conns[id].client.AwaitingPermit?
    requires cap == 0 || |Holders(s)| < cap
    ensures Moves(cap, s, r, id) && Inv(cap, r) && id in r.conns && Over(r.conns[id])
    ensures r.conns[id].reader.observed == 1 && (r.conns[id].killed <==> Eof !in polls)
  {
    r := CanStream(cap, s, id);
    r := CanPoll(cap, s, r, id, polls);
    r := CanBeReaped(cap, s, r, id);
    RecordedExactlyOnce(polls);
  }
}
