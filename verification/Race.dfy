/** One job record when the reads and writes of pulls and results interleave: what is lost, and exactly when. */
module Race {
  import opened Base
  import opened Keys
  import opened Store
  import opened Handlers
  import opened Shapes

  /** A request in flight holds the whole record it is about to write back. */
  datatype Hand = Empty | Pulling(write: Job) | Posting(write: Job)

  /** The stored record and the requests in flight. */
  datatype Scene = Scene(job: Job, hands: seq<Hand>)

  datatype Move = PullReads(i: nat, now: nat) | PostReads(i: nat, body: ResultBody, now: nat) | Writes(i: nat, now: nat)

  /** The record a pull writes after reading this one, if it writes. */
  function PullWrite(job: Job, now: nat): Option<Job> {
    if job.status.Done? || job.status.Failed? then None
    else if job.status.Running? && job.leaseUntil > now then None
    else if job.status.Running? && job.attempts >= MAX_ATTEMPTS then Some(GivenUp(job, now))
    else Some(Leased(job, now))
  }

  /** The record an accepted result writes after reading this one. */
  function PostWrite(job: Job, body: ResultBody, now: nat): Option<Job> {
    if job.status.Running? then Some(Finished(job, body, now)) else None
  }

  /** Read and written back at once, this is the round of the pull loop on a job of the pulling node. */
  lemma PullWriteIsRound(st: State, k: Slot, id: string, node: string, now: nat)
    requires k in st.index && st.index[k] == Some(id) && id in st.jobs && st.jobs[id].toNode == node
    ensures var after := PullStep(st, k, node, now).state.jobs;
            id in after && after[id] == match PullWrite(st.jobs[id], now) { case None => st.jobs[id] case Some(job) => job }
  {
    hide PullStep;
    RoundJobs(st, k, node, now);
  }

  /** Read and written back at once, this is the result handler. */
  lemma PostWriteIsResult(env: Env, st: State, req: Request, body: ResultBody, now: nat)
    requires forall id :: id in st.jobs ==> st.jobs[id].jobId == id
    requires Result(env, st, req, Fields(body), now).reply == Accepted(false)
    ensures body.jobId in st.jobs && body.jobId in Result(env, st, req, Fields(body), now).state.jobs
    ensures Some(Result(env, st, req, Fields(body), now).state.jobs[body.jobId]) == PostWrite(st.jobs[body.jobId], body, now)
  {
    ResultShape(env, st, req, Fields(body), now);
  }

  function Play(s: Scene, m: Move): Scene {
    if m.i >= |s.hands| then s
    else
      match m
      case PullReads(i, now) =>
        if s.hands[i].Empty? && PullWrite(s.job, now).Some?
        then s.(hands := s.hands[i := Pulling(PullWrite(s.job, now).value)]) else s
      case PostReads(i, body, now) =>
        if s.hands[i].Empty? && PostWrite(s.job, body, now).Some?
        then s.(hands := s.hands[i := Posting(PostWrite(s.job, body, now).value)]) else s
      case Writes(i, _) => if s.hands[i].Empty? then s else Scene(s.hands[i].write, s.hands[i := Empty])
  }

  function PlayAll(s: Scene, moves: seq<Move>): Scene
    decreases |moves|
  {
    if moves == [] then s else PlayAll(Play(s, moves[0]), moves[1..])
  }

  /** Pulls are about to write anything but done, results nothing but done. */
  predicate Held(s: Scene) {
    forall i :: 0 <= i < |s.hands| ==>
      (s.hands[i].Pulling? ==> !s.hands[i].write.status.Done?) && (s.hands[i].Posting? ==> s.hands[i].write.status.Done?)
  }

  lemma PlayHeld(s: Scene, m: Move)
    requires Held(s)
    ensures Held(Play(s, m)) && |Play(s, m).hands| == |s.hands|
  {
  }

  /** No request is in flight. */
  predicate Idle(s: Scene) {
    forall i :: 0 <= i < |s.hands| ==> s.hands[i].Empty?
  }

  lemma {:induction false} HeldAlways(s: Scene, moves: seq<Move>)
    requires Held(s)
    ensures Held(PlayAll(s, moves))
    decreases |moves|
  {
    if moves != [] {
      PlayHeld(s, moves[0]);
      HeldAlways(Play(s, moves[0]), moves[1..]);
    }
  }

  predicate NoPullInFlight(s: Scene) {
    forall i :: 0 <= i < |s.hands| ==> !s.hands[i].Pulling?
  }

  lemma {:induction false} DoneWithoutPulls(s: Scene, moves: seq<Move>)
    requires Held(s) && s.job.status.Done? && NoPullInFlight(s)
    ensures PlayAll(s, moves).job.status.Done?
    decreases |moves|
  {
    if moves != [] {
      PlayHeld(s, moves[0]);
      DoneWithoutPulls(Play(s, moves[0]), moves[1..]);
    }
  }

  /**
   * Wherever requests have got to since none was in flight, a done job can be undone by some continuation
   * exactly when a pull that read it earlier has yet to write.
   */
  lemma DoneIsSafeIff(start: Scene, before: seq<Move>)
    requires Idle(start) && PlayAll(start, before).job.status.Done?
    ensures var s := PlayAll(start, before);
            (forall moves :: PlayAll(s, moves).job.status.Done?) <==> NoPullInFlight(s)
  {
    HeldAlways(start, before);
    var s := PlayAll(start, before);
    if NoPullInFlight(s) {
      forall moves ensures PlayAll(s, moves).job.status.Done? { DoneWithoutPulls(s, moves); }
    } else {
      var i :| 0 <= i < |s.hands| && s.hands[i].Pulling?;
      WriteAlone(s, i, 0);
      assert !PlayAll(s, [Writes(i, 0)]).job.status.Done?;
    }
  }

  lemma WriteAlone(s: Scene, i: nat, now: nat)
    requires i < |s.hands| && !s.hands[i].Empty?
    ensures PlayAll(s, [Writes(i, now)]).job == s.hands[i].write
  {
    assert [Writes(i, now)][1..] == [];
  }

  /** Every request in flight would write the record that is there already. */
  predicate Settled(s: Scene) {
    forall i :: 0 <= i < |s.hands| ==> s.hands[i].Empty? || s.hands[i].write == s.job
  }

  lemma {:induction false} SettledStays(s: Scene, moves: seq<Move>)
    requires s.job.status.Done? && Settled(s)
    ensures PlayAll(s, moves).job == s.job
    decreases |moves|
  {
    if moves != [] { SettledStays(Play(s, moves[0]), moves[1..]); }
  }

  /** A done job's record is final exactly when nothing in flight would write another one. */
  lemma ResultIsFinalIff(s: Scene)
    requires s.job.status.Done?
    ensures (forall moves :: PlayAll(s, moves).job == s.job) <==> Settled(s)
  {
    if Settled(s) {
      forall moves ensures PlayAll(s, moves).job == s.job { SettledStays(s, moves); }
    } else {
      var i :| 0 <= i < |s.hands| && !s.hands[i].Empty? && s.hands[i].write != s.job;
      WriteAlone(s, i, 0);
      assert PlayAll(s, [Writes(i, 0)]).job != s.job;
    }
  }

  // ---------------------------------------------------------------- posting inside the lease

  predicate NoPosts(moves: seq<Move>) {
    forall k :: 0 <= k < |moves| ==> !moves[k].PostReads?
  }

  predicate WritesNot(moves: seq<Move>, i: nat) {
    forall k :: 0 <= k < |moves| ==> !(moves[k].Writes? && moves[k].i == i)
  }

  predicate By(moves: seq<Move>, now: nat) {
    forall k :: 0 <= k < |moves| ==> moves[k].now <= now
  }

  /**
   * Request `i` posts a result: it reads at `t` after the moves `a` and writes at `end` after the moves
   * `b`; the clock has not passed `end` before, and no other result is posted meanwhile.
   */
  predicate OnePost(s: Scene, i: nat, a: seq<Move>, t: nat, b: seq<Move>, end: nat) {
    i < |s.hands| && NoPosts(a) && NoPosts(b) && WritesNot(b, i) && By(a, end) && t <= end && By(b, end)
  }

  function Posted(i: nat, body: ResultBody, a: seq<Move>, t: nat, b: seq<Move>, end: nat): seq<Move> {
    a + [PostReads(i, body, t)] + b + [Writes(i, end)]
  }

  lemma {:induction false} PlayAppend(s: Scene, a: seq<Move>, b: seq<Move>)
    ensures PlayAll(s, a + b) == PlayAll(PlayAll(s, a), b)
    decreases |a|
  {
    if a == [] {
      assert a + b == b;
    } else {
      assert (a + b)[1..] == a[1..] + b;
      PlayAppend(Play(s, a[0]), a[1..], b);
    }
  }

  /** Inside the lease pulls do nothing to a running job. */
  lemma {:induction false} LeaseHoldsIdle(s: Scene, a: seq<Move>, end: nat)
    requires Idle(s) && s.job.status.Running? && NoPosts(a) && By(a, end) && end < s.job.leaseUntil
    ensures PlayAll(s, a) == s
    decreases |a|
  {
    if a != [] {
      assert Play(s, a[0]) == s;
      LeaseHoldsIdle(s, a[1..], end);
    }
  }

  predicate OnlyHand(s: Scene, i: nat, h: Hand) {
    i < |s.hands| && s.hands[i] == h && forall j :: 0 <= j < |s.hands| && j != i ==> s.hands[j].Empty?
  }

  lemma {:induction false} LeaseHoldsPost(s: Scene, i: nat, b: seq<Move>, end: nat)
    requires s.job.status.Running? && i < |s.hands| && s.hands[i].Posting? && OnlyHand(s, i, s.hands[i])
    requires NoPosts(b) && WritesNot(b, i) && By(b, end) && end < s.job.leaseUntil
    ensures PlayAll(s, b) == s
    decreases |b|
  {
    if b != [] {
      assert Play(s, b[0]) == s;
      LeaseHoldsPost(s, i, b[1..], end);
    }
  }

  lemma PostedInLease(s: Scene, i: nat, body: ResultBody, a: seq<Move>, t: nat, b: seq<Move>, end: nat)
    requires Idle(s) && s.job.status.Running? && OnePost(s, i, a, t, b, end) && end < s.job.leaseUntil
    ensures var done := PlayAll(s, Posted(i, body, a, t, b, end));
            done.job == Finished(s.job, body, t) && Idle(done)
  {
    hide Play;
    var (read, write) := (PostReads(i, body, t), Writes(i, end));
    var hand := Posting(Finished(s.job, body, t));
    var mid := s.(hands := s.hands[i := hand]);
    LeaseHoldsIdle(s, a, end);
    PlayAppend(s, a, [read]);
    OneMove(s, read);
    ReadsPost(s, i, body, t);
    LeaseHoldsPost(mid, i, b, end);
    PlayAppend(s, a + [read], b);
    PlayAppend(s, a + [read] + b, [write]);
    OneMove(mid, write);
    WritesPost(mid, i, end);
  }

  lemma OneMove(s: Scene, m: Move)
    ensures PlayAll(s, [m]) == Play(s, m)
  {
    assert [m][1..] == [];
  }

  lemma TwoMoves(s: Scene, m: Move, n: Move)
    ensures PlayAll(s, [m, n]) == Play(Play(s, m), n)
  {
    hide Play;
    assert [m, n][1..] == [n];
    OneMove(Play(s, m), n);
  }

  lemma ThreeMoves(s: Scene, m: Move, n: Move, o: Move)
    ensures PlayAll(s, [m, n, o]) == Play(Play(Play(s, m), n), o)
  {
    hide Play;
    assert [m, n, o][1..] == [n, o];
    TwoMoves(Play(s, m), n, o);
  }

  lemma ReadsPost(s: Scene, i: nat, body: ResultBody, t: nat)
    requires Idle(s) && s.job.status.Running? && i < |s.hands|
    ensures Play(s, PostReads(i, body, t)) == s.(hands := s.hands[i := Posting(Finished(s.job, body, t))])
  {
  }

  lemma WritesPost(s: Scene, i: nat, now: nat)
    requires i < |s.hands| && s.hands[i].Posting? && OnlyHand(s, i, s.hands[i])
    ensures Play(s, Writes(i, now)).job == s.hands[i].write && Idle(Play(s, Writes(i, now)))
  {
  }

  /** Whatever follows, the posted result is the job's record. */
  ghost predicate KeptForGood(s: Scene, i: nat, body: ResultBody, a: seq<Move>, t: nat, b: seq<Move>, end: nat) {
    forall c :: PlayAll(s, Posted(i, body, a, t, b, end) + c).job == Finished(s.job, body, t)
  }

  lemma LeaseKeeps(s: Scene, i: nat, body: ResultBody, a: seq<Move>, t: nat, b: seq<Move>, end: nat)
    requires Idle(s) && s.job.status.Running? && OnePost(s, i, a, t, b, end) && end < s.job.leaseUntil
    ensures KeptForGood(s, i, body, a, t, b, end)
  {
    hide Play, OnePost, Posted;
    var posted := Posted(i, body, a, t, b, end);
    PostedInLease(s, i, body, a, t, b, end);
    forall c ensures PlayAll(s, posted + c).job == Finished(s.job, body, t) {
      PlayAppend(s, posted, c);
      ResultIsFinalIff(PlayAll(s, posted));
    }
  }

  /** At or past the lease's end, a pull may already hold the record and write it after the result. */
  lemma PastLeaseLoses(s: Scene, i: nat, j: nat, body: ResultBody, end: nat)
    requires Idle(s) && s.job.status.Running? && i < |s.hands| && j < |s.hands| && i != j && s.job.leaseUntil <= end
    ensures OnePost(s, i, [PullReads(j, end)], end, [], end)
    ensures !KeptForGood(s, i, body, [PullReads(j, end)], end, [], end)
  {
    var (pull, read, write, late) := (PullReads(j, end), PostReads(i, body, end), Writes(i, end), Writes(j, end));
    var posted := Posted(i, body, [pull], end, [], end);
    assert posted == [pull, read, write];
    ThreeMoves(s, pull, read, write);
    var s1 := Play(s, pull);
    assert s1.hands[j].Pulling? && !s1.hands[j].write.status.Done?;
    var s3 := Play(Play(s1, read), write);
    assert s3.hands[j] == s1.hands[j];
    WriteAlone(s3, j, end);
    PlayAppend(s, posted, [late]);
    assert PlayAll(s, posted + [late]).job == s1.hands[j].write;
  }

  /**
   * A running job that one request posts a result for, none being in flight at first: however the other
   * requests interleave, the result is final in every run if and only if it is written before the lease ends.
   */
  lemma LeaseDecides(s: Scene, i: nat, body: ResultBody, end: nat)
    requires Idle(s) && s.job.status.Running? && i < |s.hands| && |s.hands| >= 2
    ensures (forall a, t, b :: OnePost(s, i, a, t, b, end) ==> KeptForGood(s, i, body, a, t, b, end))
            <==> end < s.job.leaseUntil
  {
    hide OnePost, KeptForGood;
    if end < s.job.leaseUntil {
      forall a, t, b | OnePost(s, i, a, t, b, end) ensures KeptForGood(s, i, body, a, t, b, end) {
        LeaseKeeps(s, i, body, a, t, b, end);
      }
    } else {
      PastLeaseLoses(s, i, if i == 0 then 1 else 0, body, end);
    }
  }

  /** From a queued job and one delivery on, a lone result written within ten minutes of the pull's read is final. */
  lemma FreshJobKeepsResult(
      s: Scene, k: nat, pulled: nat, i: nat, body: ResultBody, a: seq<Move>, t: nat, b: seq<Move>, end: nat)
    requires Idle(s) && s.job.status.Queued? && k < |s.hands| && end < pulled + 600_000
    requires OnePost(s, i, a, t, b, end)
    ensures var leased := PlayAll(s, [PullReads(k, pulled), Writes(k, pulled)]);
            leased == s.(job := Leased(s.job, pulled)) && KeptForGood(leased, i, body, a, t, b, end)
  {
    hide KeptForGood;
    var moves := [PullReads(k, pulled), Writes(k, pulled)];
    TwoMoves(s, moves[0], moves[1]);
    var leased := s.(job := Leased(s.job, pulled));
    assert Play(s, moves[0]).hands[k] == Pulling(Leased(s.job, pulled));
    assert Play(Play(s, moves[0]), moves[1]).hands == s.hands;
    LeaseKeeps(leased, i, body, a, t, b, end);
  }

  /** A node answers late, a second pull has already read the record: the done job runs again and its result is gone. */
  lemma LateResultIsLost(job: Job, body: ResultBody, now: nat)
    requires job.status.Running? && job.leaseUntil <= now && job.attempts < MAX_ATTEMPTS && job.result.None?
    ensures var s := Scene(job, [Empty, Empty]);
            var done := PlayAll(s, [PullReads(0, now), PostReads(1, body, now), Writes(1, now)]);
            var end := Play(done, Writes(0, now));
            && done.job.status.Done? && done.job.result == Some(body.blob)
            && end.job.status.Running? && end.job.result.None? && end.job.attempts == job.attempts + 1
  {
    var s := Scene(job, [Empty, Empty]);
    var moves := [PullReads(0, now), PostReads(1, body, now), Writes(1, now)];
    assert moves[1..][1..] == [Writes(1, now)] && moves[1..][0] == PostReads(1, body, now);
    WriteAlone(Play(Play(s, moves[0]), moves[1]), 1, now);
  }

  /** Two results that both read the job running: the later write wins, whatever the first reply said. */
  lemma SecondResultWins(job: Job, a: ResultBody, b: ResultBody, now: nat)
    requires job.status.Running?
    ensures var s := Play(Play(Scene(job, [Empty, Empty]), PostReads(0, a, now)), PostReads(1, b, now));
            && Play(s, Writes(0, now)).job.result == Some(a.blob)
            && Play(Play(s, Writes(0, now)), Writes(1, now)).job.result == Some(b.blob)
  {
  }
}
