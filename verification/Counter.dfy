/** The done counter: exact when requests are atomic, an under-count at worst when they interleave. */
module Counter {
  import opened Base
  import opened Keys
  import opened Store
  import opened Handlers
  import opened Shapes
  import opened Index
  import opened Leases

  function DoneJobs(jobs: map<string, Job>): set<string> {
    set id | id in jobs && jobs[id].status.Done?
  }

  ghost predicate Exact(st: State) {
    ReadCounter(st.jobsDone) == |DoneJobs(st.jobs)|
  }

  lemma {:induction false} LoopKeepsDone(st: State, keys: seq<Slot>, node: string, now: nat, room: nat)
    ensures DoneJobs(PullLoop(st, keys, node, now, room).state.jobs) == DoneJobs(st.jobs)
    decreases |keys|
  {
    if keys != [] && room > 0 {
      var next, left, _ := LoopUnfold(st, keys, node, now, room);
      RoundKeepsDone(st, keys[0], node, now);
      LoopKeepsDone(next, keys[1..], node, now, left);
    }
  }

  lemma RoundKeepsDone(st: State, k: Slot, node: string, now: nat)
    ensures DoneJobs(PullStep(st, k, node, now).state.jobs) == DoneJobs(st.jobs)
  {
    hide PullStep;
    RoundJobs(st, k, node, now);
  }

  lemma ExactResult(env: Env, st: State, req: Request, checked: Checked<ResultBody>, now: nat)
    requires Self(st.jobs) && Exact(st)
    ensures Exact(Result(env, st, req, checked, now).state)
  {
    var out := Result(env, st, req, checked, now);
    ResultShape(env, st, req, checked, now);
    if out.reply == Accepted(false) {
      var id := checked.value.jobId;
      assert id !in DoneJobs(st.jobs);
      assert DoneJobs(out.state.jobs) == DoneJobs(st.jobs) + {id};
    }
  }

  lemma ExactSubmit(st: State, gate: Gate, nonce: string, checked: Checked<SubmitBody>, jobId: string, now: nat)
    requires Exact(st) && jobId !in st.jobs
    ensures Exact(SubmitThrough(st, gate, nonce, checked, jobId, now).state)
  {
    var out := SubmitThrough(st, gate, nonce, checked, jobId, now);
    SubmitShape(st, gate, nonce, checked, jobId, now);
    assert DoneJobs(out.state.jobs) == DoneJobs(st.jobs);
  }

  lemma ExactPull(env: Env, st: State, req: Request, node: string, now: nat)
    requires Exact(st)
    ensures Exact(Pull(env, st, req, node, now).state)
  {
    PullShape(env, st, req, node, now);
    var st1 := Noted(st, req, now);
    LoopKeepsDone(st1, ListQueue(st1, node, PULL_MAX * 4), node, now, PULL_MAX);
    LoopFrame(st1, ListQueue(st1, node, PULL_MAX * 4), node, now, PULL_MAX);
  }

  lemma ExactStep(env: Env, st: State, ev: Event)
    requires Self(st.jobs) && Exact(st) && Handled(st, ev)
    ensures Exact(Step(env, st, ev).state)
  {
    match ev.call {
      case DoSubmit(oversize, body, jobId) =>
        if !oversize { ExactSubmit(st, MemberGate(env, ev.req, ev.now), ev.req.memberSig.nonce, body, jobId, ev.now); }
      case DoPull(node) => ExactPull(env, st, ev.req, node, ev.now);
      case DoResult(body) => ExactResult(env, st, ev.req, body, ev.now);
      case _ => NodeCallsSpareJobs(env, st, ev);
    }
  }

  lemma {:induction false} ExactRun(env: Env, st: State, events: seq<Event>)
    requires Inv(st) && Exact(st) && HandledRun(env, st, events)
    ensures Exact(Run(env, st, events))
    decreases |events|
  {
    if events != [] {
      StepKeepsInv(env, st, events[0]);
      ExactStep(env, st, events[0]);
      ExactRun(env, Step(env, st, events[0]).state, events[1..]);
    }
  }

  /** In any run of atomic requests from an empty store the counter is the number of done jobs. */
  lemma CounterIsExact(env: Env, events: seq<Event>)
    requires HandledRun(env, EMPTY, events)
    ensures var st := Run(env, EMPTY, events); ReadCounter(st.jobsDone) == |DoneJobs(st.jobs)|
  {
    assert forall n :: Queue(EMPTY, n) == {};
    assert DoneJobs(EMPTY.jobs) == {};
    ExactRun(env, EMPTY, events);
  }

  // ---------------------------------------------------------------- interleaved read-modify-write

  /** Where one accepted result is in `bumpJobsDone`. */
  datatype Bump = Waiting | Loaded(current: nat) | Stored | Lost

  datatype Racing = Racing(count: Option<int>, bumps: seq<Bump>)

  /** A result is accepted; its bump reads; writes; or one of its two storage calls fails. */
  datatype Move = Accept | Load(i: nat) | Write(i: nat) | Fail(i: nat)

  function Play(r: Racing, m: Move): Racing {
    match m
    case Accept => r.(bumps := r.bumps + [Waiting])
    case Load(i) =>
      if i < |r.bumps| && r.bumps[i].Waiting? then r.(bumps := r.bumps[i := Loaded(ReadCounter(r.count))]) else r
    case Write(i) =>
      if i < |r.bumps| && r.bumps[i].Loaded? then Racing(Some(r.bumps[i].current + 1), r.bumps[i := Stored]) else r
    case Fail(i) =>
      if i < |r.bumps| && (r.bumps[i].Waiting? || r.bumps[i].Loaded?) then r.(bumps := r.bumps[i := Lost]) else r
  }

  function PlayAll(r: Racing, moves: seq<Move>): Racing
    decreases |moves|
  {
    if moves == [] then r else PlayAll(Play(r, moves[0]), moves[1..])
  }

  function Writes(bumps: seq<Bump>): nat {
    if bumps == [] then 0 else (if bumps[0].Stored? then 1 else 0) + Writes(bumps[1..])
  }

  lemma {:induction false} WritesUpdate(bumps: seq<Bump>, i: nat, b: Bump)
    requires i < |bumps| && !bumps[i].Stored?
    ensures Writes(bumps[i := b]) == Writes(bumps) + if b.Stored? then 1 else 0
    decreases |bumps|
  {
    if i > 0 {
      WritesUpdate(bumps[1..], i - 1, b);
      assert bumps[i := b][1..] == bumps[1..][i - 1 := b];
    } else {
      assert bumps[0 := b][1..] == bumps[1..];
    }
  }

  lemma {:induction false} WritesAppend(bumps: seq<Bump>, b: Bump)
    requires !b.Stored?
    ensures Writes(bumps + [b]) == Writes(bumps)
    decreases |bumps|
  {
    if bumps == [] {
      assert (bumps + [b])[1..] == [];
    } else {
      assert (bumps + [b])[1..] == bumps[1..] + [b];
      WritesAppend(bumps[1..], b);
    }
  }

  lemma {:induction false} WritesAtMost(bumps: seq<Bump>)
    ensures Writes(bumps) <= |bumps|
    decreases |bumps|
  {
    if bumps != [] { WritesAtMost(bumps[1..]); }
  }

  /** No value in the store or in flight exceeds the writes made so far. */
  predicate Behind(r: Racing) {
    && ReadCounter(r.count) <= Writes(r.bumps)
    && forall i :: 0 <= i < |r.bumps| && r.bumps[i].Loaded? ==> r.bumps[i].current <= Writes(r.bumps)
  }

  lemma PlayBehind(r: Racing, m: Move)
    requires Behind(r)
    ensures Behind(Play(r, m)) && |r.bumps| <= |Play(r, m).bumps|
  {
    match m {
      case Accept => WritesAppend(r.bumps, Waiting);
      case Load(i) =>
        if i < |r.bumps| && r.bumps[i].Waiting? { WritesUpdate(r.bumps, i, Loaded(ReadCounter(r.count))); }
      case Write(i) => if i < |r.bumps| && r.bumps[i].Loaded? { WritesUpdate(r.bumps, i, Stored); }
      case Fail(i) => if i < |r.bumps| && !r.bumps[i].Stored? { WritesUpdate(r.bumps, i, Lost); }
    }
  }

  lemma {:induction false} RaceBehind(r: Racing, moves: seq<Move>)
    requires Behind(r)
    ensures Behind(PlayAll(r, moves))
    decreases |moves|
  {
    if moves != [] {
      PlayBehind(r, moves[0]);
      RaceBehind(Play(r, moves[0]), moves[1..]);
    }
  }

  /** Under any interleaving of reads and writes the counter never exceeds the accepted results. */
  lemma NeverOverCounts(moves: seq<Move>)
    ensures var end := PlayAll(Racing(None, []), moves); ReadCounter(end.count) <= Writes(end.bumps) <= |end.bumps|
  {
    RaceBehind(Racing(None, []), moves);
    WritesAtMost(PlayAll(Racing(None, []), moves).bumps);
  }

  /** Two results that read before either writes collapse into one increment. */
  lemma MayUnderCount()
    ensures var end := PlayAll(Racing(None, []), [Accept, Accept, Load(0), Load(1), Write(0), Write(1)]);
            end.count == Some(1) && Writes(end.bumps) == 2
  {
    var a := Play(Play(Racing(None, []), Accept), Accept);
    assert a.bumps == [Waiting, Waiting];
    var b := Play(Play(a, Load(0)), Load(1));
    assert b.bumps == [Loaded(0), Loaded(0)];
    var c := Play(Play(b, Write(0)), Write(1));
    assert c == Racing(Some(1), [Stored, Stored]);
    var moves := [Accept, Accept, Load(0), Load(1), Write(0), Write(1)];
    assert PlayAll(c, moves[6..]) == c;
    assert moves[1..][1..] == moves[2..] && moves[2..][1..] == moves[3..] && moves[3..][1..] == moves[4..];
    assert moves[4..][1..] == moves[5..] && moves[5..][1..] == moves[6..];
    assert Writes(c.bumps) == 2;
  }
}
