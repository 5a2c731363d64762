/** What becomes of each single job: a schedule stated on job records alone, which the index, the window and the loop carry out. */
module Fates {
  import opened Base
  import opened Keys
  import opened Store
  import opened Handlers
  import opened Shapes
  import opened Index
  import opened Window
  import opened Ordering

  // ---------------------------------------------------------------- the schedule

  /** Handed out next time round: never run, or run out of its lease with deliveries to spare. */
  predicate Ready(job: Job, now: nat) {
    job.status == Queued || (job.status == Running && job.leaseUntil <= now && job.attempts < 5)
  }

  /** Run out of its fifth lease. */
  predicate Exhausted(job: Job, now: nat) {
    job.status == Running && job.leaseUntil <= now && job.attempts >= 5
  }

  predicate Unfinished(job: Job) {
    job.status == Queued || job.status == Running
  }

  /** The unfinished jobs of the same node that are older; within one millisecond the lower id is. */
  function Ahead(jobs: map<string, Job>, id: string): set<string>
    requires id in jobs
  {
    set j | j in jobs && Unfinished(jobs[j]) && jobs[j].toNode == jobs[id].toNode
            && (jobs[j].createdMs < jobs[id].createdMs || (jobs[j].createdMs == jobs[id].createdMs && TextLess(j, id)))
  }

  function ReadyAhead(jobs: map<string, Job>, id: string, now: nat): set<string>
    requires id in jobs
  {
    set j | j in Ahead(jobs, id) && Ready(jobs[j], now)
  }

  /** A pull of its node gets to the job: fewer than forty unfinished ones are older and fewer than ten of those ready. */
  predicate Reached(jobs: map<string, Job>, id: string, node: string, now: nat)
    requires id in jobs
  {
    && jobs[id].toNode == node && Unfinished(jobs[id])
    && |Ahead(jobs, id)| < 40 && |ReadyAhead(jobs, id, now)| < 10
  }

  /** The job's record once a pull has got to it. */
  function Moved(was: Job, now: nat): Job {
    if Ready(was, now) then
      Job(was.jobId, was.toNode, was.blob, was.replyKey, Running, was.attempts + 1, now + 600_000, was.createdMs, now,
          was.result, was.receipt, was.failedReason)
    else if Exhausted(was, now) then
      Job(was.jobId, was.toNode, was.blob, was.replyKey, Failed, was.attempts, was.leaseUntil, was.createdMs, now,
          was.result, was.receipt, Some("lease expired after max attempts"))
    else was
  }

  // ---------------------------------------------------------------- the loop, job by job

  lemma DecideOnJob(st: State, k: Slot, node: string, now: nat)
    requires Agree(st.jobs, st.index) && k in st.index && k.node == node
    ensures k.job in st.jobs
    ensures Decide(st, k, node, now) == Deliver <==> Ready(st.jobs[k.job], now)
    ensures PullStep(st, k, node, now).state.jobs == st.jobs[k.job := Moved(st.jobs[k.job], now)]
  {
    hide PullStep;
    StepShape(st, k, node, now);
    assert SlotOf(st.jobs[k.job]) == k;
    if Decide(st, k, node, now) == Skip { assert st.jobs[k.job := st.jobs[k.job]] == st.jobs; }
  }

  /** The entries are the node's own. */
  ghost predicate Listed(st: State, keys: seq<Slot>, node: string) {
    Distinct(keys) && forall i :: 0 <= i < |keys| ==> keys[i] in st.index && keys[i].node == node
  }

  lemma ListedAfterRound(st: State, keys: seq<Slot>, node: string, now: nat)
    requires Agree(st.jobs, st.index) && keys != [] && Listed(st, keys, node)
    ensures Listed(PullStep(st, keys[0], node, now).state, keys[1..], node)
    ensures forall i :: 0 < i < |keys| ==> keys[i].job != keys[0].job
  {
    hide PullStep, Decide;
    forall i | 0 < i < |keys|
      ensures keys[i] in PullStep(st, keys[0], node, now).state.index && keys[i].job != keys[0].job
    {
      OthersUnchanged(st, keys[0], keys[i], node, now);
      assert SlotOf(st.jobs[keys[i].job]) == keys[i] && SlotOf(st.jobs[keys[0].job]) == keys[0];
    }
  }

  /** A job none of the entries names is left alone. */
  lemma {:induction false} LoopSpares(st: State, keys: seq<Slot>, node: string, now: nat, room: nat, id: string)
    requires Agree(st.jobs, st.index) && Listed(st, keys, node) && id in st.jobs
    requires forall i :: 0 <= i < |keys| ==> keys[i].job != id
    ensures var jobs := PullLoop(st, keys, node, now, room).state.jobs; id in jobs && jobs[id] == st.jobs[id]
    decreases |keys|
  {
    hide PullStep, Decide, Moved;
    if keys != [] && room > 0 {
      var next, left, rest := LoopUnfold(st, keys, node, now, room);
      DecideOnJob(st, keys[0], node, now);
      ListedAfterRound(st, keys, node, now);
      StepAgrees(st, keys[0], node, now);
      LoopSpares(next, keys[1..], node, now, left, id);
    }
  }

  lemma DueLater(st: State, keys: seq<Slot>, node: string, now: nat, i: nat)
    requires Agree(st.jobs, st.index) && Listed(st, keys, node) && 0 < i < |keys|
    ensures var next := PullStep(st, keys[0], node, now).state;
            |Due(st, keys[..i], node, now)|
            == |PullStep(st, keys[0], node, now).jobs| + |Due(next, keys[1..][..i - 1], node, now)|
  {
    hide PullStep, Decide;
    StepShape(st, keys[0], node, now);
    assert keys[..i][1..] == keys[1..][..i - 1];
    DueUnchanged(st, keys[0], keys[1..][..i - 1], node, now);
  }

  /** The i-th entry's job moves exactly when fewer than `room` entries before it are due. */
  lemma {:induction false} LoopFate(st: State, keys: seq<Slot>, node: string, now: nat, room: nat, i: nat)
    requires Agree(st.jobs, st.index) && Listed(st, keys, node) && i < |keys|
    ensures var jobs := PullLoop(st, keys, node, now, room).state.jobs;
            var id := keys[i].job;
            && id in st.jobs && id in jobs
            && jobs[id] == if |Due(st, keys[..i], node, now)| < room then Moved(st.jobs[id], now) else st.jobs[id]
    decreases |keys|
  {
    hide PullStep, Decide, Moved;
    DecideOnJob(st, keys[i], node, now);
    if room > 0 {
      var next, left, rest := LoopUnfold(st, keys, node, now, room);
      DecideOnJob(st, keys[0], node, now);
      ListedAfterRound(st, keys, node, now);
      StepAgrees(st, keys[0], node, now);
      if i == 0 {
        LoopSpares(next, keys[1..], node, now, left, keys[0].job);
      } else {
        LoopFate(next, keys[1..], node, now, left, i - 1);
        DueLater(st, keys, node, now, i);
      }
    }
  }

  // ---------------------------------------------------------------- counting along the listing

  lemma {:induction false} NamesCount(keys: seq<Slot>)
    requires forall i, j :: 0 <= i < j < |keys| ==> keys[i].job != keys[j].job
    ensures |set i | 0 <= i < |keys| :: keys[i].job| == |keys|
    decreases |keys|
  {
    if keys != [] {
      var rest := keys[1..];
      var (all, tail) := (set i | 0 <= i < |keys| :: keys[i].job, set i | 0 <= i < |rest| :: rest[i].job);
      NamesCount(rest);
      forall x ensures x in all <==> x in {keys[0].job} + tail {
        if x in tail {
          var i :| 0 <= i < |rest| && rest[i].job == x;
          assert keys[i + 1].job == x;
        }
        if x in all && x != keys[0].job {
          var i :| 0 <= i < |keys| && keys[i].job == x;
          assert rest[i - 1].job == x;
        }
      }
      assert keys[0].job !in tail;
      assert all == {keys[0].job} + tail;
    }
  }

  /** The due entries of a listing, as a set and without repeats. */
  lemma {:induction false} DueMembers(st: State, keys: seq<Slot>, node: string, now: nat)
    requires Distinct(keys)
    ensures forall k :: k in Due(st, keys, node, now) <==> k in keys && Decide(st, k, node, now) == Deliver
    ensures Distinct(Due(st, keys, node, now))
    ensures Sorted(keys, Earlier) ==> Sorted(Due(st, keys, node, now), Earlier)
    decreases |keys|
  {
    hide Decide, Earlier;
    if keys != [] {
      DueMembers(st, keys[1..], node, now);
      assert keys[0] !in keys[1..];
      forall x | x in keys[1..] && Sorted(keys, Earlier) ensures Earlier(keys[0], x) {}
      assert Sorted(keys, Earlier) ==> Sorted(keys[1..], Earlier);
    }
  }

  /** The node's entries, oldest first. */
  ghost function Entries(st: State, node: string): (q: seq<Slot>)
    ensures Lists(q, Queue(st, node), Earlier)
  {
    EarlierTotal(Queue(st, node), node);
    SortedSeq(Queue(st, node), Earlier)
  }

  lemma EntriesListed(st: State, node: string)
    ensures Listed(st, Entries(st, node), node) && Sorted(Entries(st, node), Earlier)
    ensures forall limit: nat :: ListQueue(st, node, limit) == Take(Entries(st, node), limit)
  {
    EarlierTotal(Queue(st, node), node);
    var q := Entries(st, node);
    forall i, j | 0 <= i < j < |q| ensures q[i] != q[j] { ListedOnce(q, Queue(st, node), Earlier, i, j); }
    forall i | 0 <= i < |q| ensures q[i] in st.index && q[i].node == node { assert q[i] in Queue(st, node); }
  }

  /** Where an unfinished job's entry is. */
  lemma EntryAt(st: State, node: string, id: string) returns (i: nat)
    requires Agree(st.jobs, st.index) && id in st.jobs && Unfinished(st.jobs[id]) && st.jobs[id].toNode == node
    ensures i < |Entries(st, node)| && Entries(st, node)[i] == SlotOf(st.jobs[id]) && SlotOf(st.jobs[id]).job == id
  {
    hide Earlier;
    assert SlotOf(st.jobs[id]) in Queue(st, node);
    i :| 0 <= i < |Entries(st, node)| && Entries(st, node)[i] == SlotOf(st.jobs[id]);
  }

  lemma AheadIsBefore(st: State, node: string, id: string, i: nat)
    requires Agree(st.jobs, st.index) && id in st.jobs && Unfinished(st.jobs[id]) && st.jobs[id].toNode == node
    requires i < |Entries(st, node)| && Entries(st, node)[i] == SlotOf(st.jobs[id])
    ensures forall j :: j in Ahead(st.jobs, id) <==> exists n :: 0 <= n < i && Entries(st, node)[n].job == j
  {
    hide TextLess, Entries;
    var (q, k) := (Entries(st, node), SlotOf(st.jobs[id]));
    EarlierTotal(Queue(st, node), node);
    forall j ensures j in Ahead(st.jobs, id) <==> exists n :: 0 <= n < i && q[n].job == j {
      if j in Ahead(st.jobs, id) {
        var n := EntryAt(st, node, j);
        assert Earlier(q[n], k);
        assert n < i by { NotEarlier(q, i, n); }
      }
      if n :| 0 <= n < i && q[n].job == j {
        assert q[n] in Queue(st, node) && Earlier(q[n], k) && SlotOf(st.jobs[j]) == q[n];
      }
    }
  }

  lemma NotEarlier(q: seq<Slot>, i: nat, n: nat)
    requires Sorted(q, Earlier) && i < |q| && n < |q| && Earlier(q[n], q[i])
    ensures n < i
  {
    if n == i { LexIrreflexive(Codes(q[i].job)); }
    if n > i {
      assert Earlier(q[i], q[n]);
      var jobs := {q[i].job, q[n].job};
      TextTotal(jobs);
    }
  }

  /** The entry's place is the number of older jobs, and the due entries before it are the ready ones of those. */
  lemma PlaceIsCount(st: State, node: string, id: string, i: nat, now: nat)
    requires Agree(st.jobs, st.index) && id in st.jobs && Unfinished(st.jobs[id]) && st.jobs[id].toNode == node
    requires i < |Entries(st, node)| && Entries(st, node)[i] == SlotOf(st.jobs[id])
    ensures |Ahead(st.jobs, id)| == i
    ensures |ReadyAhead(st.jobs, id, now)| == |Due(st, Entries(st, node)[..i], node, now)|
  {
    hide Ahead, Entries, Earlier, Decide;
    EntriesListed(st, node);
    AheadIsBefore(st, node, id, i);
    var pre := Entries(st, node)[..i];
    NamesDiffer(st, pre, node);
    NamesCount(pre);
    assert Ahead(st.jobs, id) == set n | 0 <= n < |pre| :: pre[n].job;
    ReadyIsDue(st, node, id, pre, now);
    var due := Due(st, pre, node, now);
    DueMembers(st, pre, node, now);
    NamesDiffer(st, due, node);
    NamesCount(due);
    assert ReadyAhead(st.jobs, id, now) == set n | 0 <= n < |due| :: due[n].job;
  }

  lemma ReadyIsDue(st: State, node: string, id: string, pre: seq<Slot>, now: nat)
    requires Agree(st.jobs, st.index) && Listed(st, pre, node) && id in st.jobs
    requires Ahead(st.jobs, id) == set n | 0 <= n < |pre| :: pre[n].job
    ensures var due := Due(st, pre, node, now);
            && (forall n :: 0 <= n < |due| ==> due[n] in pre)
            && forall j :: j in ReadyAhead(st.jobs, id, now) <==> exists n :: 0 <= n < |due| && due[n].job == j
  {
    hide Ahead, Decide, Due;
    var due := Due(st, pre, node, now);
    DueMembers(st, pre, node, now);
    forall n | 0 <= n < |due| ensures due[n] in pre { assert due[n] in due; }
    forall j ensures j in ReadyAhead(st.jobs, id, now) <==> exists n :: 0 <= n < |due| && due[n].job == j {
      if j in ReadyAhead(st.jobs, id, now) {
        var n :| 0 <= n < |pre| && pre[n].job == j;
        DecideOnJob(st, pre[n], node, now);
        assert pre[n] in due;
      }
      if n :| 0 <= n < |due| && due[n].job == j {
        DecideOnJob(st, due[n], node, now);
        assert due[n] in pre;
      }
    }
  }

  lemma NamesDiffer(st: State, keys: seq<Slot>, node: string)
    requires Agree(st.jobs, st.index) && Distinct(keys) && forall i :: 0 <= i < |keys| ==> keys[i] in st.index && keys[i].node == node
    ensures forall i, j :: 0 <= i < j < |keys| ==> keys[i].job != keys[j].job
  {
    forall i, j | 0 <= i < j < |keys| ensures keys[i].job != keys[j].job {
      assert SlotOf(st.jobs[keys[i].job]) == keys[i] && SlotOf(st.jobs[keys[j].job]) == keys[j];
    }
  }

  // ---------------------------------------------------------------- pulls

  /** The loop over the forty-entry listing moves exactly the reached jobs. */
  lemma LoopMoves(st: State, node: string, now: nat, id: string)
    requires Agree(st.jobs, st.index) && id in st.jobs
    ensures var jobs := PullLoop(st, ListQueue(st, node, PULL_MAX * 4), node, now, PULL_MAX).state.jobs;
            id in jobs && jobs[id] == if Reached(st.jobs, id, node, now) then Moved(st.jobs[id], now) else st.jobs[id]
  {
    hide Ahead, ReadyAhead, Entries, Earlier, Decide, Moved, PullLoop, ListQueue;
    EntriesListed(st, node);
    var (all, w) := (Entries(st, node), ListQueue(st, node, PULL_MAX * 4));
    if st.jobs[id].toNode == node && Unfinished(st.jobs[id]) {
      var i := EntryAt(st, node, id);
      PlaceIsCount(st, node, id, i, now);
      if i < 40 {
        assert w[..i] == all[..i] && w[i] == all[i];
        LoopFate(st, w, node, now, PULL_MAX, i);
      } else {
        forall j | 0 <= j < |w| ensures w[j].job != id { assert all[j] != all[i] && SlotOf(st.jobs[all[j].job]) == all[j]; }
        LoopSpares(st, w, node, now, PULL_MAX, id);
      }
    } else {
      forall j | 0 <= j < |w| ensures w[j].job != id { assert w[j] in st.index; }
      LoopSpares(st, w, node, now, PULL_MAX, id);
    }
  }

  /**
   * A pull, job by job. It hands out a job, running under a ten-minute lease and once more attempted, exactly when
   * the job is ready, fewer than forty unfinished jobs of the node are older, and fewer than ten of those are ready;
   * it fails a reached job whose fifth lease ran out; every other record is as it was.
   */
  lemma PullMovesExactly(env: Env, st: State, req: Request, node: string, now: nat, id: string)
    requires Agree(st.jobs, st.index) && id in st.jobs && Pull(env, st, req, node, now).reply.Pulled?
    ensures var out := Pull(env, st, req, node, now);
            && out.state.jobs.Keys == st.jobs.Keys
            && out.state.jobs[id] == if Reached(st.jobs, id, node, now) then Moved(st.jobs[id], now) else st.jobs[id]
  {
    hide Reached, Moved, Pull, PullLoop, ListQueue;
    PullShape(env, st, req, node, now);
    var st1 := Noted(st, req, now);
    assert st1.jobs == st.jobs && st1.index == st.index;
    LoopFrame(st1, ListQueue(st1, node, PULL_MAX * 4), node, now, PULL_MAX);
    LoopMoves(st1, node, now, id);
  }

  lemma {:induction false} DueAmongFirst(st: State, keys: seq<Slot>, node: string, now: nat, room: nat, i: nat)
    requires Distinct(keys) && i < |keys|
    ensures keys[i] in Take(Due(st, keys, node, now), room)
            <==> Decide(st, keys[i], node, now) == Deliver && |Due(st, keys[..i], node, now)| < room
    decreases |keys|
  {
    hide Decide, Due, Distinct;
    var (k, rest) := (keys[0], keys[1..]);
    var (due, later) := (Due(st, keys, node, now), Due(st, rest, node, now));
    DueUnfolds(st, keys, node, now, i);
    DistinctTail(keys);
    if i == 0 {
      DueMembers(st, rest, node, now);
      DueFirst(k, due, later, room, Decide(st, k, node, now) == Deliver);
    } else {
      assert rest[i - 1] == keys[i] != k;
      if Decide(st, k, node, now) != Deliver {
        assert due == later;
        DueAmongFirst(st, rest, node, now, room, i - 1);
      } else if room > 0 {
        assert Take([k] + later, room) == [k] + Take(later, room - 1);
        DueAmongFirst(st, rest, node, now, room - 1, i - 1);
      }
    }
  }

  lemma DueUnfolds(st: State, keys: seq<Slot>, node: string, now: nat, i: nat)
    requires i < |keys|
    ensures var head := if Decide(st, keys[0], node, now) == Deliver then [keys[0]] else [];
            && Due(st, keys, node, now) == head + Due(st, keys[1..], node, now)
            && Due(st, keys[..i], node, now) == if i == 0 then [] else head + Due(st, keys[1..][..i - 1], node, now)
  {
    hide Decide;
    if i > 0 { assert keys[..i][1..] == keys[1..][..i - 1]; }
  }

  lemma DistinctTail(keys: seq<Slot>)
    requires Distinct(keys) && keys != []
    ensures Distinct(keys[1..]) && keys[0] !in keys[1..]
  {
  }

  lemma DueFirst(k: Slot, due: seq<Slot>, later: seq<Slot>, room: nat, ready: bool)
    requires due == (if ready then [k] else []) + later && k !in later
    ensures k in Take(due, room) <==> ready && room > 0
  {
    if ready && room > 0 { assert Take(due, room)[0] == k; }
    if !ready { assert due == later; }
  }

  /** Of two jobs of a node, the one created first, or the one with the lower id. */
  predicate Older(jobs: map<string, Job>, a: string, b: string)
    requires a in jobs && b in jobs
  {
    jobs[a].createdMs < jobs[b].createdMs || (jobs[a].createdMs == jobs[b].createdMs && TextLess(a, b))
  }

  /** The answer holds the reached and ready jobs, each as it was submitted, oldest first and none twice. */
  lemma PullHandsOutExactly(env: Env, st: State, req: Request, node: string, now: nat)
    requires Inv(st) && Pull(env, st, req, node, now).reply.Pulled?
    ensures var found := Pull(env, st, req, node, now).reply.jobs;
            && (forall i :: 0 <= i < |found| ==>
                  var id := found[i].jobId;
                  && id in st.jobs && Reached(st.jobs, id, node, now) && Ready(st.jobs[id], now)
                  && found[i] == Envelope(id, node, st.jobs[id].blob, st.jobs[id].replyKey))
            && (forall id :: id in st.jobs && Reached(st.jobs, id, node, now) && Ready(st.jobs[id], now) ==>
                  exists i :: 0 <= i < |found| && found[i].jobId == id)
            && (forall i, j :: 0 <= i < j < |found| ==> Older(st.jobs, found[i].jobId, found[j].jobId))
  {
    hide Ahead, ReadyAhead, Entries, Earlier, Decide, Pull, ListQueue, Ready, Agree, Due;
    PullExact(env, st, req, node, now);
    EntriesListed(st, node);
    var (all, w) := (Entries(st, node), ListQueue(st, node, WINDOW));
    var due := Take(Due(st, w, node, now), PULL_MAX);
    var found := Pull(env, st, req, node, now).reply.jobs;
    DueMembers(st, w, node, now);
    forall i | 0 <= i < |due|
      ensures due[i].job in st.jobs && SlotOf(st.jobs[due[i].job]) == due[i]
              && Reached(st.jobs, due[i].job, node, now) && Ready(st.jobs[due[i].job], now)
    {
      assert due[i] == Due(st, w, node, now)[i];
      assert due[i] in Due(st, w, node, now);
      var n :| 0 <= n < |w| && w[n] == due[i];
      PlaceReached(st, node, now, n, w);
    }
    forall id | id in st.jobs && Reached(st.jobs, id, node, now) && Ready(st.jobs[id], now)
      ensures exists i :: 0 <= i < |found| && found[i].jobId == id
    {
      var n := EntryAt(st, node, id);
      PlaceIsCount(st, node, id, n, now);
      assert n < |w| && w[n] == all[n];
      PlaceReached(st, node, now, n, w);
      var i :| 0 <= i < |due| && due[i] == w[n];
      assert found[i].jobId == id;
    }
    DueInOrder(st, due);
  }

  lemma DueInOrder(st: State, due: seq<Slot>)
    requires Sorted(due, Earlier)
    requires forall i :: 0 <= i < |due| ==> due[i].job in st.jobs && SlotOf(st.jobs[due[i].job]) == due[i]
    ensures forall i, j :: 0 <= i < j < |due| ==> Older(st.jobs, due[i].job, due[j].job)
  {
    hide TextLess;
  }

  /** An entry of the window is among the first ten due ones exactly when its job is reached and ready. */
  lemma PlaceReached(st: State, node: string, now: nat, n: nat, w: seq<Slot>)
    requires Agree(st.jobs, st.index) && w == ListQueue(st, node, WINDOW) && n < |w|
    ensures var id := w[n].job;
            && id in st.jobs && SlotOf(st.jobs[id]) == w[n] && st.jobs[id].jobId == id
            && (w[n] in Take(Due(st, w, node, now), PULL_MAX) <==> Reached(st.jobs, id, node, now) && Ready(st.jobs[id], now))
  {
    hide Ahead, ReadyAhead, Entries, Earlier, Decide, ListQueue, Ready, Due;
    EntriesListed(st, node);
    var all := Entries(st, node);
    assert w[n] == all[n] && w[..n] == all[..n];
    assert all[n] in st.index;
    DecideOnJob(st, w[n], node, now);
    PlaceIsCount(st, node, w[n].job, n, now);
    ListingDistinct(st, node, WINDOW);
    DueAmongFirst(st, w, node, now, PULL_MAX, n);
  }

  // ---------------------------------------------------------------- stale entries

  /** The entry names no stored job, or one that is finished. */
  predicate Stale(st: State, k: Slot) {
    k in st.index && (st.index[k].None? || st.index[k].value !in st.jobs || !Unfinished(st.jobs[st.index[k].value]))
  }

  lemma RoundClears(st: State, k: Slot, j: Slot, node: string, now: nat)
    ensures var next := PullStep(st, k, node, now).state;
            && (Stale(st, k) ==> k !in next.index)
            && (j !in st.index ==> j !in next.index)
            && (Stale(st, j) ==> j !in next.index || Stale(next, j))
            && (j != k && j in st.index ==> j in next.index && next.index[j] == st.index[j])
  {
  }

  /** Whatever the store holds, a loop that ends with room left has deleted every stale entry it was given. */
  lemma {:induction false} LoopClears(st: State, keys: seq<Slot>, node: string, now: nat, room: nat, j: Slot)
    ensures var out := PullLoop(st, keys, node, now, room);
            && (j !in st.index ==> j !in out.state.index)
            && (Stale(st, j) ==> j !in out.state.index || Stale(out.state, j))
            && (j in keys && Stale(st, j) && |out.jobs| < room ==> j !in out.state.index)
            && (j !in keys && j in st.index ==> j in out.state.index && out.state.index[j] == st.index[j])
    decreases |keys|
  {
    hide PullStep, Stale;
    if keys != [] && room > 0 {
      var next, left, rest := LoopUnfold(st, keys, node, now, room);
      RoundClears(st, keys[0], j, node, now);
      LoopClears(next, keys[1..], node, now, left, j);
    }
  }

  /**
   * Entries that expiry or a late listing left behind: a pull that answers with fewer than ten jobs deletes every
   * stale entry among the first forty, and no pull touches an entry past them.
   */
  lemma StaleEntriesGo(env: Env, st: State, req: Request, node: string, now: nat, j: Slot)
    requires Pull(env, st, req, node, now).reply.Pulled?
    ensures var out := Pull(env, st, req, node, now);
            && (j in ListQueue(st, node, 40) && Stale(st, j) && |out.reply.jobs| < 10 ==> j !in out.state.index)
            && (j !in ListQueue(st, node, 40) && j in st.index ==> j in out.state.index && out.state.index[j] == st.index[j])
  {
    hide Pull, PullLoop, ListQueue, CheckSignature, CheckHeaders;
    PullShape(env, st, req, node, now);
    var st1 := Noted(st, req, now);
    SameListing(st1, st, node);
    LoopClears(st1, ListQueue(st1, node, PULL_MAX * 4), node, now, PULL_MAX, j);
  }

  lemma SameListing(a: State, b: State, node: string)
    requires a.index == b.index
    ensures forall limit: nat :: ListQueue(a, node, limit) == ListQueue(b, node, limit)
  {
    assert Queue(a, node) == Queue(b, node);
  }

  // ---------------------------------------------------------------- submits, results, status

  /** A submit that creates a job files it queued and untouched, enters it in the index, and notes key and nonce. */
  lemma SubmitFilesExactly(st: State, gate: Gate, nonce: string, checked: Checked<SubmitBody>, jobId: string, now: nat)
    ensures var out := SubmitThrough(st, gate, nonce, checked, jobId, now);
            if out.reply == Submitted(jobId, false) then
              && checked.Fields?
              && var SubmitBody(node, blob, replyKey, token) := checked.value;
                 && out.state.jobs == st.jobs[jobId := Job(jobId, node, blob, replyKey, Queued, 0, 0, now, now, None, None, None)]
                 && out.state.index == st.index[Slot(node, now, jobId) := Some(jobId)]
                 && out.state.idem == (if token.None? then st.idem else st.idem[(node, token.value) := jobId])
                 && out.state.nodes == st.nodes && out.state.nonces == st.nonces && out.state.jobsDone == st.jobsDone
            else out.state.(memberNonces := st.memberNonces) == st
    ensures var out := SubmitThrough(st, gate, nonce, checked, jobId, now);
            out.state.memberNonces ==
              if gate.ByMember? && (gate.key, nonce) !in st.memberNonces
              then st.memberNonces[(gate.key, nonce) := Nonce(now / 1000, now + 600_000)] else st.memberNonces
  {
    SubmitShape(st, gate, nonce, checked, jobId, now);
    if gate.ByMember? && (gate.key, nonce) !in st.memberNonces {
      AdmitShape(Gated(st, gate, nonce, now), checked, jobId, now);
    }
  }

  /** The count after one more, whatever was stored: anything but a positive number counts as none. */
  function OneMore(count: Option<int>): int {
    if count.Some? && count.value > 0 then count.value + 1 else 1
  }

  /** An accepted result closes exactly its job: record, index entry and counter. Any other answer leaves all three alone. */
  lemma ResultFilesExactly(env: Env, st: State, req: Request, checked: Checked<ResultBody>, now: nat)
    requires Agree(st.jobs, st.index)
    ensures var out := Result(env, st, req, checked, now);
            if out.reply == Accepted(false) then
              && checked.Fields? && checked.value.jobId in st.jobs
              && var ResultBody(id, blob, receipt) := checked.value;
                 var was := st.jobs[id];
                 && out.state.jobs == st.jobs[id := Job(
                      id, was.toNode, was.blob, was.replyKey, Done, was.attempts, 0, was.createdMs, now, Some(blob),
                      if receipt.Some? then receipt else was.receipt, was.failedReason)]
                 && out.state.index == st.index - {Slot(was.toNode, was.createdMs, id)}
                 && out.state.jobsDone == Some(OneMore(st.jobsDone))
                 && out.state.nonces == st.nonces[(req.nodeId, req.sig.nonce) := Nonce(now / 1000, now + 600_000)]
                 && out.state.nodes == st.nodes && out.state.idem == st.idem && out.state.memberNonces == st.memberNonces
            else out.state.(nonces := st.nonces) == st
  {
    hide CheckSignature, CheckHeaders;
    ResultShape(env, st, req, checked, now);
  }

  /** A job's status is its record's, and blob and receipt show exactly when it is done. */
  lemma StatusShowsExactly(st: State, id: string)
    requires IsJobId(id)
    ensures JobStatus(st, id) == None <==> id !in st.jobs
    ensures id in st.jobs ==>
              && (JobStatus(st, id) == Some(NotDone(Queued)) <==> st.jobs[id].status == Queued)
              && (JobStatus(st, id) == Some(NotDone(Running)) <==> st.jobs[id].status == Running)
              && (JobStatus(st, id) == Some(NotDone(Failed)) <==> st.jobs[id].status == Failed)
              && (JobStatus(st, id) == Some(Finally(st.jobs[id].result, st.jobs[id].receipt)) <==> st.jobs[id].status == Done)
  {
  }
}
