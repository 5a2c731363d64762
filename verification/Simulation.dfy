/** The indexed key/value coordinator does what the dict-scanning mock does, and exactly when. */
module Simulation {
  import opened Base
  import opened Keys
  import opened Store
  import opened Handlers
  import opened Shapes
  import opened Index
  import opened Window
  import opened Ordering
  import opened Mock
  import opened JsonValue
  import opened PyDocument

  // ---------------------------------------------------------------- the relation

  /** The worker keeps what JSON makes of the receipt, the mock the Python document itself. */
  ghost predicate SameReceipt(worker: Option<Json>, mock: Option<PyDoc>) {
    if mock.None? then worker.None? else worker == Some(ToJs(mock.value)) && Portable(mock.value)
  }

  ghost predicate Alike(job: Job, mock: MockJob) {
    && job.jobId == mock.jobId && job.toNode == mock.toNode && job.blob == mock.blob && job.replyKey == mock.replyKey
    && job.status == mock.status && job.attempts == mock.attempts && job.leaseUntil == mock.leaseUntil
    && job.result == mock.result && SameReceipt(job.receipt, mock.receipt)
    && (job.receipt.Some? ==> job.status.Done?)
  }

  ghost predicate Like(jobs: map<string, Job>, mocks: MockJobs) {
    jobs.Keys == mocks.Keys && forall id :: id in jobs ==> Alike(jobs[id], mocks[id])
  }

  predicate Contend(a: Job, b: Job) {
    Pending(a) && Pending(b) && a.toNode == b.toNode
  }

  /** Among one node's unfinished jobs, sequence numbers follow the index order. */
  ghost predicate SameOrder(jobs: map<string, Job>, mocks: MockJobs) {
    forall a, b | a in jobs && b in jobs && a in mocks && b in mocks && Contend(jobs[a], jobs[b]) ::
      mocks[a].seqNo < mocks[b].seqNo <==> Earlier(SlotOf(jobs[a]), SlotOf(jobs[b]))
  }

  ghost predicate Sim(st: State, m: MockState) {
    && Inv(st) && Numbered(m)
    && Like(st.jobs, m.jobs) && SameOrder(st.jobs, m.jobs)
    && st.nodes.Keys == m.nodes && st.idem == m.idem && ReadCounter(st.jobsDone) == m.jobsDone
  }

  // ---------------------------------------------------------------- two loops over one queue

  /** The slots of the node's unfinished jobs, in the order the ids are listed. */
  function SlotsIn(jobs: map<string, Job>, ids: seq<string>, node: string): seq<Slot>
    requires forall i :: 0 <= i < |ids| ==> ids[i] in jobs
  {
    if ids == [] then []
    else (if jobs[ids[0]].toNode == node && Pending(jobs[ids[0]]) then [SlotOf(jobs[ids[0]])] else [])
         + SlotsIn(jobs, ids[1..], node)
  }

  lemma {:induction false} SlotsInSame(a: map<string, Job>, b: map<string, Job>, ids: seq<string>, node: string)
    requires forall i :: 0 <= i < |ids| ==> ids[i] in a && ids[i] in b && a[ids[i]] == b[ids[i]]
    ensures SlotsIn(a, ids, node) == SlotsIn(b, ids, node)
    decreases |ids|
  {
    if ids != [] { SlotsInSame(a, b, ids[1..], node); }
  }

  lemma LikeUpdate(jobs: map<string, Job>, mocks: MockJobs, id: string, job: Job, mock: MockJob)
    requires Like(jobs, mocks) && id in jobs && Alike(job, mock)
    ensures Like(jobs[id := job], mocks[id := mock])
  {
  }

  /** What the loop does to a pending job through its own entry. */
  lemma RoundIs(st: State, id: string, node: string, now: nat)
    requires id in st.jobs && st.jobs[id].toNode == node && Pending(st.jobs[id]) && st.jobs[id].jobId == id
    requires SlotOf(st.jobs[id]) in st.index && st.index[SlotOf(st.jobs[id])] == Some(id)
    ensures var job := st.jobs[id];
            var round := PullStep(st, SlotOf(job), node, now);
            if job.status.Running? && job.leaseUntil > now then round == PullOut(st, [])
            else if job.status.Running? && job.attempts >= MAX_ATTEMPTS then
              round == PullOut(st.(jobs := st.jobs[id := GivenUp(job, now)], index := st.index - {SlotOf(job)}), [])
            else round == PullOut(st.(jobs := st.jobs[id := Leased(job, now)]), [EnvelopeOf(job)])
  {
  }

  /** What the scan does to the mock's copy of that job. */
  lemma ScanIs(mocks: MockJobs, id: string, job: Job, node: string, now: nat)
    requires id in mocks && Alike(job, mocks[id]) && job.toNode == node && Pending(job)
    ensures var one := ScanJob(mocks, id, node, now);
            if job.status.Running? && job.leaseUntil > now then one == ScanOut(mocks, [])
            else if job.status.Running? && job.attempts >= MAX_ATTEMPTS then
              id in one.jobs && one.jobs == mocks[id := one.jobs[id]] && Alike(GivenUp(job, now), one.jobs[id]) && one.out == []
            else
              id in one.jobs && one.jobs == mocks[id := one.jobs[id]] && Alike(Leased(job, now), one.jobs[id])
              && one.out == [EnvelopeOf(job)]
  {
  }

  lemma RoundsAgree(st: State, mocks: MockJobs, id: string, node: string, now: nat)
    requires Like(st.jobs, mocks)
    requires id in st.jobs && st.jobs[id].toNode == node && Pending(st.jobs[id]) && st.jobs[id].jobId == id
    requires SlotOf(st.jobs[id]) in st.index && st.index[SlotOf(st.jobs[id])] == Some(id)
    ensures var round := PullStep(st, SlotOf(st.jobs[id]), node, now);
            var one := ScanJob(mocks, id, node, now);
            && round.jobs == one.out && |one.out| <= 1 && Like(round.state.jobs, one.jobs)
            && forall j :: j in st.jobs && j != id ==> round.state.jobs[j] == st.jobs[j]
  {
    var job := st.jobs[id];
    RoundIs(st, id, node, now);
    ScanIs(mocks, id, job, node, now);
    var one := ScanJob(mocks, id, node, now);
    if job.status.Running? && job.leaseUntil > now {
    } else if job.status.Running? && job.attempts >= MAX_ATTEMPTS {
      LikeUpdate(st.jobs, mocks, id, GivenUp(job, now), one.jobs[id]);
    } else {
      LikeUpdate(st.jobs, mocks, id, Leased(job, now), one.jobs[id]);
    }
  }

  ghost predicate SameWalk(pull: PullOut, scan: ScanOut) {
    pull.jobs == scan.out && Like(pull.state.jobs, scan.jobs)
  }

  /** Each listed unfinished job has its index entry. */
  ghost predicate Indexed(st: State, ids: seq<string>) {
    forall i :: 0 <= i < |ids| ==>
      ids[i] in st.jobs && st.jobs[ids[i]].jobId == ids[i]
      && (Pending(st.jobs[ids[i]]) ==> SlotOf(st.jobs[ids[i]]) in st.index && st.index[SlotOf(st.jobs[ids[i]])] == Some(ids[i]))
  }

  lemma RoundKeepsIndexed(st: State, ids: seq<string>, node: string, now: nat)
    requires ids != [] && Indexed(st, ids) && forall i :: 0 < i < |ids| ==> ids[i] != ids[0]
    requires st.jobs[ids[0]].toNode == node && Pending(st.jobs[ids[0]])
    ensures var next := PullStep(st, SlotOf(st.jobs[ids[0]]), node, now).state;
            && Indexed(next, ids[1..])
            && SlotsIn(next.jobs, ids[1..], node) == SlotsIn(st.jobs, ids[1..], node)
  {
    RoundIs(st, ids[0], node, now);
    SlotsInSame(st.jobs, PullStep(st, SlotOf(st.jobs[ids[0]]), node, now).state.jobs, ids[1..], node);
  }

  /** One job of the scan, and the index round it corresponds to, if any. */
  lemma OneRound(
      st: State, mocks: MockJobs, ids: seq<string>, node: string, now: nat, room: nat,
      keys: seq<Slot>, walk: PullOut, one: ScanOut)
      returns (next: State, left: nat, keys': seq<Slot>, walk': PullOut)
    requires Indexed(st, ids) && Like(st.jobs, mocks) && ids != [] && room > 0
    requires forall i :: 0 < i < |ids| ==> ids[i] != ids[0]
    requires keys == SlotsIn(st.jobs, ids, node) && walk == PullLoop(st, keys, node, now, room)
    requires one == ScanJob(mocks, ids[0], node, now)
    ensures left == room - |one.out| && Indexed(next, ids[1..]) && Like(next.jobs, one.jobs)
    ensures walk.state == walk'.state && walk.jobs == one.out + walk'.jobs
    ensures keys' == SlotsIn(next.jobs, ids[1..], node) && walk' == PullLoop(next, keys', node, now, left)
  {
    var id := ids[0];
    keys' := SlotsIn(st.jobs, ids[1..], node);
    if st.jobs[id].toNode == node && Pending(st.jobs[id]) {
      assert keys == [SlotOf(st.jobs[id])] + keys';
      RoundsAgree(st, mocks, id, node, now);
      RoundKeepsIndexed(st, ids, node, now);
      next, left, walk' := LoopUnfold(st, keys, node, now, room);
    } else {
      SkipsAgree(st.jobs[id], mocks, id, node, now);
      assert keys == keys';
      next, left, walk' := st, room, walk;
      assert [] + walk.jobs == walk.jobs;
    }
  }

  lemma ScanStep(mocks: MockJobs, ids: seq<string>, node: string, now: nat, room: nat, scan: ScanOut)
      returns (one: ScanOut, left: nat, scan': ScanOut)
    requires ids != [] && room > 0 && forall i :: 0 <= i < |ids| ==> ids[i] in mocks
    requires scan == Scan(mocks, ids, node, now, room)
    ensures one == ScanJob(mocks, ids[0], node, now) && one.jobs.Keys == mocks.Keys && left == room - |one.out|
    ensures scan' == Scan(one.jobs, ids[1..], node, now, left)
    ensures scan.jobs == scan'.jobs && scan.out == one.out + scan'.out
  {
    one := ScanJob(mocks, ids[0], node, now);
    left := room - |one.out|;
    scan' := Scan(one.jobs, ids[1..], node, now, left);
  }

  /** A scan of `ids` and an index walk of `keys` that start alike, with the results they reach. */
  ghost predicate Abreast(
      st: State, mocks: MockJobs, ids: seq<string>, node: string, now: nat, room: nat,
      keys: seq<Slot>, walk: PullOut, scan: ScanOut)
  {
    && Indexed(st, ids) && Like(st.jobs, mocks)
    && (forall i, j :: 0 <= i < j < |ids| ==> ids[i] != ids[j])
    && keys == SlotsIn(st.jobs, ids, node) && walk == PullLoop(st, keys, node, now, room)
    && scan == Scan(mocks, ids, node, now, room)
  }

  lemma Advance(
      st: State, mocks: MockJobs, ids: seq<string>, node: string, now: nat, room: nat,
      keys: seq<Slot>, walk: PullOut, scan: ScanOut)
      returns (next: State, one: ScanOut, left: nat, keys': seq<Slot>, walk': PullOut, scan': ScanOut)
    requires Abreast(st, mocks, ids, node, now, room, keys, walk, scan) && ids != [] && room > 0
    ensures Abreast(next, one.jobs, ids[1..], node, now, left, keys', walk', scan')
    ensures walk.state == walk'.state && walk.jobs == one.out + walk'.jobs
    ensures scan.jobs == scan'.jobs && scan.out == one.out + scan'.out
  {
    one, left, scan' := ScanStep(mocks, ids, node, now, room, scan);
    next, left, keys', walk' := OneRound(st, mocks, ids, node, now, room, keys, walk, one);
  }

  /** Scanning all jobs and walking the index reach the same jobs in the same way. */
  lemma {:induction false} LoopsAgree(
      st: State, mocks: MockJobs, ids: seq<string>, node: string, now: nat, room: nat,
      keys: seq<Slot>, walk: PullOut, scan: ScanOut)
    requires Abreast(st, mocks, ids, node, now, room, keys, walk, scan)
    ensures SameWalk(walk, scan)
    decreases |ids|
  {
    if ids != [] && room > 0 {
      var next, one, left, keys', walk', scan' := Advance(st, mocks, ids, node, now, room, keys, walk, scan);
      LoopsAgree(next, one.jobs, ids[1..], node, now, left, keys', walk', scan');
    }
  }

  /** The scan passes over a job that is not in this node's index. */
  lemma SkipsAgree(job: Job, mocks: MockJobs, id: string, node: string, now: nat)
    requires id in mocks && Alike(job, mocks[id]) && !(job.toNode == node && Pending(job))
    ensures ScanJob(mocks, id, node, now) == ScanOut(mocks, [])
  {
  }

  // ---------------------------------------------------------------- the scan order is the index order

  lemma {:induction false} SlotsInMembers(jobs: map<string, Job>, ids: seq<string>, node: string)
    requires forall i :: 0 <= i < |ids| ==> ids[i] in jobs && jobs[ids[i]].jobId == ids[i]
    ensures forall k :: k in SlotsIn(jobs, ids, node) <==>
              k.job in ids && k.job in jobs && jobs[k.job].toNode == node && Pending(jobs[k.job]) && k == SlotOf(jobs[k.job])
    decreases |ids|
  {
    if ids != [] { SlotsInMembers(jobs, ids[1..], node); }
  }

  lemma {:induction false} SlotsInSorted(jobs: map<string, Job>, mocks: MockJobs, ids: seq<string>, node: string)
    requires SameOrder(jobs, mocks)
    requires forall i :: 0 <= i < |ids| ==> ids[i] in jobs && ids[i] in mocks && jobs[ids[i]].jobId == ids[i]
    requires forall i, j :: 0 <= i < j < |ids| ==> mocks[ids[i]].seqNo < mocks[ids[j]].seqNo
    ensures Sorted(SlotsIn(jobs, ids, node), Earlier)
    decreases |ids|
  {
    if ids != [] {
      var tail := SlotsIn(jobs, ids[1..], node);
      SlotsInSorted(jobs, mocks, ids[1..], node);
      SlotsInMembers(jobs, ids[1..], node);
      if jobs[ids[0]].toNode == node && Pending(jobs[ids[0]]) {
        forall j | 0 <= j < |tail| ensures Earlier(SlotOf(jobs[ids[0]]), tail[j]) {
          assert tail[j] in tail;
          var i :| 1 <= i < |ids| && ids[i] == tail[j].job;
        }
      }
    }
  }

  /** The whole queue of a node, in listing order. */
  function WholeQueue(st: State, node: string): seq<Slot> {
    EarlierTotal(Queue(st, node), node);
    SortedSeq(Queue(st, node), Earlier)
  }

  lemma OrderBySeq(m: MockState, ids: seq<string>)
    requires Numbered(m) && ids == ScanOrder(m)
    ensures forall i, j :: 0 <= i < j < |ids| ==> m.jobs[ids[i]].seqNo < m.jobs[ids[j]].seqNo
    ensures forall id :: id in m.jobs ==> id in ids
  {
    SeqTotal(m);
    var lt := (a, b) => BySeq(m.jobs, a, b);
    forall i, j | 0 <= i < j < |ids| ensures m.jobs[ids[i]].seqNo < m.jobs[ids[j]].seqNo {
      assert lt(ids[i], ids[j]);
    }
  }

  lemma ScanOrderIsQueueOrder(st: State, m: MockState, node: string)
    requires Sim(st, m)
    ensures SlotsIn(st.jobs, ScanOrder(m), node) == WholeQueue(st, node)
  {
    hide SlotsIn, ScanOrder;
    var ids := ScanOrder(m);
    OrderBySeq(m, ids);
    SlotsInSorted(st.jobs, m.jobs, ids, node);
    SlotsInMembers(st.jobs, ids, node);
    QueueIsPending(st, node);
    EarlierTotal(Queue(st, node), node);
    var keys := SlotsIn(st.jobs, ids, node);
    forall k ensures k in Queue(st, node) <==> k in keys {
      if k in Queue(st, node) { assert k.job in st.jobs && SlotOf(st.jobs[k.job]) == k; }
    }
    ListingUnique(keys, WholeQueue(st, node), Queue(st, node), Earlier);
  }

  /** The mock's pull is the pull loop over the whole queue. */
  lemma MockPullsWholeQueue(st: State, m: MockState, node: string, now: nat)
    requires Sim(st, m)
    ensures var pull := PullLoop(st, WholeQueue(st, node), node, now, PULL_MAX);
            SameWalk(pull, Scan(m.jobs, ScanOrder(m), node, now, PULL_MAX))
  {
    var ids := ScanOrder(m);
    OrderBySeq(m, ids);
    ScanOrderIsQueueOrder(st, m, node);
    AllIndexed(st, ids);
    LoopsAgree(st, m.jobs, ids, node, now, PULL_MAX, WholeQueue(st, node),
               PullLoop(st, WholeQueue(st, node), node, now, PULL_MAX), Scan(m.jobs, ids, node, now, PULL_MAX));
  }

  lemma AllIndexed(st: State, ids: seq<string>)
    requires Agree(st.jobs, st.index) && forall i :: 0 <= i < |ids| ==> ids[i] in st.jobs
    ensures Indexed(st, ids)
  {
    forall i | 0 <= i < |ids| && Pending(st.jobs[ids[i]])
      ensures SlotOf(st.jobs[ids[i]]) in st.index && st.index[SlotOf(st.jobs[ids[i]])] == Some(ids[i])
    {
      assert SlotOf(st.jobs[ids[i]]) in st.index;
    }
  }

  // ---------------------------------------------------------------- window against whole queue

  /** Walking two listings is walking the first and then the second with the room that is left. */
  lemma {:induction false} LoopAppend(st: State, a: seq<Slot>, b: seq<Slot>, node: string, now: nat, room: nat)
      returns (first: PullOut, second: PullOut)
    ensures first == PullLoop(st, a, node, now, room) && |first.jobs| <= room
    ensures second == PullLoop(first.state, b, node, now, room - |first.jobs|)
    ensures PullLoop(st, a + b, node, now, room) == PullOut(second.state, first.jobs + second.jobs)
    decreases |a|
  {
    hide PullStep;
    first := PullLoop(st, a, node, now, room);
    if a == [] || room == 0 {
      assert a == [] ==> a + b == b;
      second := PullLoop(st, b, node, now, room);
      assert [] + second.jobs == second.jobs;
    } else {
      var next, left, rest := LoopUnfold(st, a, node, now, room);
      var _, second' := LoopAppend(next, a[1..], b, node, now, left);
      second := second';
      assert (a + b)[1..] == a[1..] + b && (a + b)[0] == a[0];
      var next', left', rest' := LoopUnfold(st, a + b, node, now, room);
      assert rest' == PullOut(second.state, rest.jobs + second.jobs);
      AppendAssociates(PullStep(st, a[0], node, now).jobs, rest.jobs, second.jobs);
    }
  }

  lemma AppendAssociates(a: seq<Envelope>, b: seq<Envelope>, c: seq<Envelope>)
    ensures a + (b + c) == (a + b) + c
  {
  }

  lemma {:induction false} LoopSparesOthers(st: State, keys: seq<Slot>, j: Slot, node: string, now: nat, room: nat)
    requires Agree(st.jobs, st.index) && j !in keys
    ensures Decide(PullLoop(st, keys, node, now, room).state, j, node, now) == Decide(st, j, node, now)
    decreases |keys|
  {
    if keys != [] && room > 0 {
      var next, left, _ := LoopUnfold(st, keys, node, now, room);
      OthersUnchanged(st, keys[0], j, node, now);
      StepAgrees(st, keys[0], node, now);
      LoopSparesOthers(next, keys[1..], j, node, now, left);
    }
  }

  lemma WholeQueueDistinct(st: State, node: string)
    ensures Distinct(WholeQueue(st, node)) && forall k :: k in WholeQueue(st, node) <==> k in Queue(st, node)
  {
    EarlierTotal(Queue(st, node), node);
    var q := WholeQueue(st, node);
    forall i, j | 0 <= i < j < |q| ensures q[i] != q[j] { ListedOnce(q, Queue(st, node), Earlier, i, j); }
  }

  /** The first entry past the window is still queued, so a scan that gets there delivers it. */
  lemma BeyondWindowIsDue(st: State, node: string, now: nat)
    requires Inv(st) && RunningInWindow(st) && |Queue(st, node)| > WINDOW
    ensures Decide(st, WholeQueue(st, node)[WINDOW], node, now) == Deliver
    ensures WholeQueue(st, node)[WINDOW] !in ListQueue(st, node, WINDOW)
  {
    var q := WholeQueue(st, node);
    var k := q[WINDOW];
    WholeQueueDistinct(st, node);
    assert k in q;
    assert ListQueue(st, node, WINDOW) == q[..WINDOW];
    assert k !in ListQueue(st, node, WINDOW);
    assert !InWindow(st, k);
  }

  predicate WindowSuffices(st: State, node: string, now: nat) {
    |Queue(st, node)| <= WINDOW || |Due(st, ListQueue(st, node, WINDOW), node, now)| >= PULL_MAX
  }

  /** The queue is its window and a remainder that is empty for at most forty entries. */
  lemma WindowAndRest(st: State, node: string) returns (w: seq<Slot>, beyond: seq<Slot>)
    ensures w == ListQueue(st, node, WINDOW) && WholeQueue(st, node) == w + beyond
    ensures beyond == [] <==> |Queue(st, node)| <= WINDOW
    ensures beyond != [] ==> beyond[0] == WholeQueue(st, node)[WINDOW]
  {
    var q := WholeQueue(st, node);
    w, beyond := Take(q, WINDOW), q[Min(WINDOW, |q|)..];
  }

  lemma DeliveredInWindow(st: State, node: string, now: nat)
    requires Inv(st)
    ensures var w := ListQueue(st, node, WINDOW);
            |PullLoop(st, w, node, now, PULL_MAX).jobs| == Min(PULL_MAX, |Due(st, w, node, now)|)
  {
    ListingDistinct(st, node, WINDOW);
    LoopDelivers(st, ListQueue(st, node, WINDOW), node, now, PULL_MAX);
  }

  /** The forty-entry pull equals the whole-queue pull when the window holds the queue or fills the answer. */
  lemma WindowedPull(st: State, node: string, now: nat)
    requires Inv(st) && WindowSuffices(st, node, now)
    ensures PullLoop(st, ListQueue(st, node, WINDOW), node, now, PULL_MAX)
         == PullLoop(st, WholeQueue(st, node), node, now, PULL_MAX)
  {
    var w, beyond := WindowAndRest(st, node);
    var first, second := LoopAppend(st, w, beyond, node, now, PULL_MAX);
    DeliveredInWindow(st, node, now);
    NothingLeft(first, second, beyond, node, now, PULL_MAX - |first.jobs|);
  }

  lemma NothingLeft(first: PullOut, second: PullOut, keys: seq<Slot>, node: string, now: nat, room: nat)
    requires second == PullLoop(first.state, keys, node, now, room) && (keys == [] || room == 0)
    ensures PullOut(second.state, first.jobs + second.jobs) == first
  {
    assert first.jobs + [] == first.jobs;
  }

  /** Otherwise the whole-queue pull delivers a job the windowed pull does not see. */
  lemma WindowedPullFallsShort(st: State, node: string, now: nat)
    requires Inv(st) && RunningInWindow(st) && !WindowSuffices(st, node, now)
    ensures |PullLoop(st, ListQueue(st, node, WINDOW), node, now, PULL_MAX).jobs|
          < |PullLoop(st, WholeQueue(st, node), node, now, PULL_MAX).jobs|
  {
    hide Agree, WithinCap, RunningInWindow, PullLoop, PullStep, Decide;
    var w, beyond := WindowAndRest(st, node);
    var first, second := LoopAppend(st, w, beyond, node, now, PULL_MAX);
    DeliveredInWindow(st, node, now);
    BeyondWindowIsDue(st, node, now);
    LoopSparesOthers(st, w, beyond[0], node, now, PULL_MAX);
    var next, left, rest := LoopUnfold(first.state, beyond, node, now, PULL_MAX - |first.jobs|);
    RoundJobs(first.state, beyond[0], node, now);
  }

  /**
   * The exact condition under which a pull on the key/value store matches the mock's: at most forty
   * unfinished jobs on the node, or ten deliverable ones among the first forty.
   */
  lemma PullsMatchExactly(env: Env, st: State, m: MockState, req: Request, node: string, now: nat)
    requires Sim(st, m) && RunningInWindow(st) && Pull(env, st, req, node, now).reply.Pulled?
    ensures var kv := Pull(env, st, req, node, now);
            var mock := MockPull(m, node, now);
            (kv.reply == mock.1 && Like(kv.state.jobs, mock.0.jobs)) <==> WindowSuffices(st, node, now)
  {
    hide Pull, PullLoop, Scan, CheckHeaders, Due;
    PullShape(env, st, req, node, now);
    var st1 := Noted(st, req, now);
    SimIgnoresNonces(st, st1, m);
    SameJobsKeepWindow(st, st1);
    assert Queue(st1, node) == Queue(st, node);
    SameDue(st1, st, ListQueue(st, node, WINDOW), node, now);
    LoopMatchesExactly(st1, m, node, now);
  }

  lemma LoopMatchesExactly(st: State, m: MockState, node: string, now: nat)
    requires Sim(st, m) && RunningInWindow(st)
    ensures var walk := PullLoop(st, ListQueue(st, node, WINDOW), node, now, PULL_MAX);
            SameWalk(walk, Scan(m.jobs, ScanOrder(m), node, now, PULL_MAX)) <==> WindowSuffices(st, node, now)
  {
    MockPullsWholeQueue(st, m, node, now);
    if WindowSuffices(st, node, now) {
      WindowedPull(st, node, now);
    } else {
      WindowedPullFallsShort(st, node, now);
    }
  }

  // ---------------------------------------------------------------- one step

  lemma SimIgnoresNonces(a: State, b: State, m: MockState)
    requires Sim(a, m) && SameButNonces(b, a)
    ensures Sim(b, m)
  {
    FewerEntries(a, b);
  }

  lemma SameCount(st: State, m: MockState, node: string)
    requires Sim(st, m)
    ensures QueuedCount(m.jobs, node) == |Queue(st, node)|
  {
    QueueIsPending(st, node);
    var ids := set id | id in m.jobs && Counted(m.jobs[id], node);
    var slots := Queue(st, node);
    forall id ensures id in ids <==> id in st.jobs && SlotOf(st.jobs[id]) in slots && st.jobs[id].toNode == node && Pending(st.jobs[id]) {}
    SlotCount(st, ids, slots);
  }

  lemma {:induction false} SlotCount(st: State, ids: set<string>, slots: set<Slot>)
    requires forall id :: id in ids ==> id in st.jobs && st.jobs[id].jobId == id && SlotOf(st.jobs[id]) in slots
    requires forall k :: k in slots ==> k.job in ids && k.job in st.jobs && SlotOf(st.jobs[k.job]) == k
    ensures |ids| == |slots|
    decreases |ids|
  {
    if ids == {} {
      assert slots == {};
    } else {
      var id :| id in ids;
      var k := SlotOf(st.jobs[id]);
      SlotCount(st, ids - {id}, slots - {k});
    }
  }

  lemma SimCreate(st: State, m: MockState, body: SubmitBody, jobId: string, now: nat)
    requires Sim(st, m) && jobId !in st.jobs && SortsLast(st, Slot(body.toNode, now, jobId))
    requires IsNodeId(body.toNode) && (body.idempotencyKey.Some? ==> IsIdempotencyKey(body.idempotencyKey.value))
    ensures var kv := Enqueue(st, body, jobId, now);
            var mock := Create(m, body, jobId, now);
            kv.reply == mock.1 && Sim(kv.state, mock.0)
  {
    hide Like, SameOrder, Numbered, Agree, WithinCap, IsNodeId, IsIdempotencyKey, Queue, QueuedCount, SortsLast;
    SameCount(st, m, body.toNode);
    EnqueueShape(st, body, jobId, now);
    var kv := Enqueue(st, body, jobId, now);
    if kv.reply == Submitted(jobId, false) {
      CreatedKeepsInv(st, kv.state, body, jobId, now);
      ComesLast(st, NewJob(body, jobId, now));
      SimCreated(st.jobs, m, kv.state.jobs, Create(m, body, jobId, now).0, NewJob(body, jobId, now));
    }
  }

  lemma SimCreated(jobs: map<string, Job>, m: MockState, jobs': map<string, Job>, after: MockState, job: Job)
    requires Numbered(m) && Like(jobs, m.jobs) && SameOrder(jobs, m.jobs) && job.jobId !in jobs
    requires job.status.Queued? && job.attempts == 0 && job.leaseUntil == 0 && job.result.None? && job.receipt.None?
    requires forall a :: a in jobs && Contend(jobs[a], job) ==>
               Earlier(SlotOf(jobs[a]), SlotOf(job)) && !Earlier(SlotOf(job), SlotOf(jobs[a]))
    requires jobs' == jobs[job.jobId := job] && after.lastSeq == m.lastSeq + 1
    requires after.jobs == m.jobs[job.jobId := MockJob(job.jobId, job.toNode, job.blob, job.replyKey, Queued, None, None,
                                                       0, 0, job.createdMs, m.lastSeq + 1)]
    ensures Numbered(after) && Like(jobs', after.jobs) && SameOrder(jobs', after.jobs)
  {
    hide SameOrder, Earlier;
    EarlierAsymmetric(SlotOf(job), SlotOf(job));
    assert forall a :: a in jobs ==> m.jobs[a].seqNo < after.jobs[job.jobId].seqNo;
    hide Numbered;
    NumberedAdd(m, after, job.jobId);
    LikeAdd(jobs, m.jobs, job, after.jobs[job.jobId]);
    LastInOrder(jobs, m.jobs, jobs', after.jobs, job);
  }

  lemma NumberedAdd(m: MockState, after: MockState, id: string)
    requires Numbered(m) && id !in m.jobs && id in after.jobs && after.jobs == m.jobs[id := after.jobs[id]]
    requires after.jobs[id].seqNo == after.lastSeq == m.lastSeq + 1 && after.jobs[id].jobId == id
    ensures Numbered(after)
  {
  }

  lemma NumberedUpdate(m: MockState, after: MockState, id: string)
    requires Numbered(m) && id in m.jobs && id in after.jobs && after.jobs == m.jobs[id := after.jobs[id]]
    requires after.lastSeq == m.lastSeq
    requires after.jobs[id].seqNo == m.jobs[id].seqNo && after.jobs[id].jobId == m.jobs[id].jobId
    ensures Numbered(after)
  {
  }

  lemma LikeAdd(jobs: map<string, Job>, mocks: MockJobs, job: Job, mock: MockJob)
    requires Like(jobs, mocks) && Alike(job, mock)
    ensures Like(jobs[job.jobId := job], mocks[job.jobId := mock])
  {
  }

  lemma ComesLast(st: State, job: Job)
    requires Agree(st.jobs, st.index) && SortsLast(st, SlotOf(job))
    ensures forall a :: a in st.jobs && Contend(st.jobs[a], job) ==>
              Earlier(SlotOf(st.jobs[a]), SlotOf(job)) && !Earlier(SlotOf(job), SlotOf(st.jobs[a]))
  {
    forall a | a in st.jobs && Contend(st.jobs[a], job)
      ensures Earlier(SlotOf(st.jobs[a]), SlotOf(job)) && !Earlier(SlotOf(job), SlotOf(st.jobs[a]))
    {
      EarlierAsymmetric(SlotOf(st.jobs[a]), SlotOf(job));
    }
  }

  lemma LastInOrder(jobs: map<string, Job>, mocks: MockJobs, jobs': map<string, Job>, mocks': MockJobs, job: Job)
    requires SameOrder(jobs, mocks) && jobs.Keys == mocks.Keys && job.jobId !in jobs
    requires jobs' == jobs[job.jobId := job] && mocks'.Keys == jobs'.Keys
    requires forall a :: a in jobs ==> mocks'[a].seqNo == mocks[a].seqNo && mocks[a].seqNo < mocks'[job.jobId].seqNo
    requires !Earlier(SlotOf(job), SlotOf(job))
    requires forall a :: a in jobs && Contend(jobs[a], job) ==>
               Earlier(SlotOf(jobs[a]), SlotOf(job)) && !Earlier(SlotOf(job), SlotOf(jobs[a]))
    ensures SameOrder(jobs', mocks')
  {
    forall a, b | a in jobs' && b in jobs' && Contend(jobs'[a], jobs'[b])
      ensures mocks'[a].seqNo < mocks'[b].seqNo <==> Earlier(SlotOf(jobs'[a]), SlotOf(jobs'[b]))
    {
      if a in jobs && b in jobs {
        assert mocks[a].seqNo < mocks[b].seqNo <==> Earlier(SlotOf(jobs[a]), SlotOf(jobs[b]));
      } else if a in jobs {
        assert Contend(jobs[a], job);
      } else if b in jobs {
        assert Contend(jobs[b], job);
      }
    }
  }

  lemma EarlierAsymmetric(a: Slot, b: Slot)
    ensures Earlier(a, b) ==> !Earlier(b, a)
  {
    if Earlier(a, b) && a.createdMs == b.createdMs {
      LexIrreflexive(Codes(a.job));
      if TextLess(b.job, a.job) { LexTransitive(Codes(a.job), Codes(b.job), Codes(a.job)); }
    }
  }

  lemma SimPull(env: Env, st: State, m: MockState, req: Request, node: string, now: nat)
    requires Sim(st, m) && Pull(env, st, req, node, now).reply.Pulled? && WindowSuffices(st, node, now)
    ensures var kv := Pull(env, st, req, node, now);
            var mock := MockPull(m, node, now);
            kv.reply == mock.1 && Sim(kv.state, mock.0)
  {
    PullShape(env, st, req, node, now);
    PullKeepsInv(env, st, req, node, now);
    var st1 := Noted(st, req, now);
    SimIgnoresNonces(st, st1, m);
    assert Queue(st1, node) == Queue(st, node);
    SameDue(st1, st, ListQueue(st, node, WINDOW), node, now);
    SimLoop(st1, m, node, now);
  }

  lemma SimLoop(st: State, m: MockState, node: string, now: nat)
    requires Sim(st, m) && node in m.nodes && WindowSuffices(st, node, now)
    ensures var pull := PullLoop(st, ListQueue(st, node, WINDOW), node, now, PULL_MAX);
            var mock := MockPull(m, node, now);
            mock.1 == Pulled(pull.jobs) && (Inv(pull.state) ==> Sim(pull.state, mock.0))
  {
    var w := ListQueue(st, node, WINDOW);
    var pull := PullLoop(st, w, node, now, PULL_MAX);
    var scan := Scan(m.jobs, ScanOrder(m), node, now, PULL_MAX);
    MockPullsWholeQueue(st, m, node, now);
    WindowedPull(st, node, now);
    LoopFrame(st, w, node, now, PULL_MAX);
    SimAfterLoop(st, m, w, node, now, pull, scan);
  }

  lemma SimAfterLoop(st: State, m: MockState, w: seq<Slot>, node: string, now: nat, pull: PullOut, scan: ScanOut)
    requires Numbered(m) && Like(st.jobs, m.jobs) && SameOrder(st.jobs, m.jobs)
    requires pull == PullLoop(st, w, node, now, PULL_MAX) && scan == Scan(m.jobs, ScanOrder(m), node, now, PULL_MAX)
    ensures Numbered(m.(jobs := scan.jobs)) && SameOrder(pull.state.jobs, scan.jobs)
  {
    LoopFixes(st, w, node, now, PULL_MAX);
    ScanKeepsNumbers(m.jobs, ScanOrder(m), node, now, PULL_MAX);
    OrderSurvives(st.jobs, m.jobs, pull.state.jobs, scan.jobs);
  }

  /** What no pull changes about a job, and that a finished job stays as it is. */
  predicate PullFixes(a: Job, b: Job) {
    && a.jobId == b.jobId && a.toNode == b.toNode && a.createdMs == b.createdMs && a.blob == b.blob && a.replyKey == b.replyKey
    && a.receipt == b.receipt && a.result == b.result
    && (!Pending(a) ==> b == a) && !(b.status.Done? && !a.status.Done?) && (b.status.Queued? ==> a == b)
  }

  lemma {:induction false} LoopFixes(st: State, keys: seq<Slot>, node: string, now: nat, room: nat)
    ensures var out := PullLoop(st, keys, node, now, room).state.jobs;
            out.Keys == st.jobs.Keys && forall id :: id in st.jobs ==> PullFixes(st.jobs[id], out[id])
    decreases |keys|
  {
    if keys != [] && room > 0 {
      var next, left, _ := LoopUnfold(st, keys, node, now, room);
      RoundFixes(st, keys[0], node, now);
      LoopFixes(next, keys[1..], node, now, left);
    }
  }

  lemma RoundFixes(st: State, k: Slot, node: string, now: nat)
    ensures var out := PullStep(st, k, node, now).state.jobs;
            out.Keys == st.jobs.Keys && forall id :: id in st.jobs ==> PullFixes(st.jobs[id], out[id])
  {
    match Decide(st, k, node, now) {
      case GiveUp =>
        var id := st.index[k].value;
        assert PullStep(st, k, node, now).state.jobs == st.jobs[id := GivenUp(st.jobs[id], now)];
      case Deliver =>
        var id := st.index[k].value;
        assert PullStep(st, k, node, now).state.jobs == st.jobs[id := Leased(st.jobs[id], now)];
      case _ => assert PullStep(st, k, node, now).state.jobs == st.jobs;
    }
  }

  lemma OrderSurvives(jobs: map<string, Job>, mocks: MockJobs, jobs': map<string, Job>, mocks': MockJobs)
    requires SameOrder(jobs, mocks) && jobs.Keys == mocks.Keys
    requires jobs'.Keys == jobs.Keys && mocks'.Keys == mocks.Keys
    requires forall id :: id in jobs ==> PullFixes(jobs[id], jobs'[id])
    requires forall id :: id in mocks ==> mocks'[id].seqNo == mocks[id].seqNo
    ensures SameOrder(jobs', mocks')
  {
  }

  /** One posted result, as each server reads it. */
  ghost predicate SameResult(body: ResultBody, mocked: MockResultBody) {
    body.jobId == mocked.jobId && body.blob == mocked.blob && SameReceipt(body.receipt, mocked.receipt)
  }

  lemma SimResult(env: Env, st: State, m: MockState, req: Request, body: ResultBody, mocked: MockResultBody, now: nat)
    requires SameResult(body, mocked)
    requires Sim(st, m) && IsJobId(body.jobId) && req.nodeId in st.nodes
    requires Authentic(env, st, req, st.nodes[req.nodeId].verifyKey, now)
    ensures var kv := Result(env, st, req, Fields(body), now);
            var mock := MockResult(m, req.nodeId, mocked);
            kv.reply == mock.1 && Sim(kv.state, mock.0)
  {
    hide Result, Like, SameOrder, Numbered, CheckHeaders;
    var kv := Result(env, st, req, Fields(body), now);
    ResultShape(env, st, req, Fields(body), now);
    ResultReplies(env, st, m, req, body, mocked, now);
    if kv.reply == Accepted(false) {
      ResultKeepsInv(env, st, req, Fields(body), now);
      SimFinished(st.jobs, m, body, mocked, now, kv.state.jobs, MockResult(m, req.nodeId, mocked).0);
    } else {
      SimIgnoresNonces(st, kv.state, m);
    }
  }

  lemma ResultReplies(env: Env, st: State, m: MockState, req: Request, body: ResultBody, mocked: MockResultBody, now: nat)
    requires SameResult(body, mocked)
    requires Sim(st, m) && IsJobId(body.jobId) && req.nodeId in st.nodes
    requires Authentic(env, st, req, st.nodes[req.nodeId].verifyKey, now)
    ensures Result(env, st, req, Fields(body), now).reply == MockResult(m, req.nodeId, mocked).1
    ensures Result(env, st, req, Fields(body), now).reply != Accepted(false) ==> MockResult(m, req.nodeId, mocked).0 == m
  {
    SignatureShape(env, st, req, st.nodes[req.nodeId].verifyKey, now);
  }

  lemma SimFinished(
      jobs: map<string, Job>, m: MockState, body: ResultBody, mocked: MockResultBody, now: nat, jobs': map<string, Job>, after: MockState)
    requires SameResult(body, mocked)
    requires Numbered(m) && Like(jobs, m.jobs) && SameOrder(jobs, m.jobs)
    requires body.jobId in jobs && jobs[body.jobId].status.Running?
    requires jobs' == jobs[body.jobId := Finished(jobs[body.jobId], body, now)]
    requires after.lastSeq == m.lastSeq && after.jobs == m.jobs[body.jobId := m.jobs[body.jobId].(
               status := Done, result := Some(mocked.blob), receipt := mocked.receipt, leaseUntil := 0)]
    ensures Numbered(after) && Like(jobs', after.jobs) && SameOrder(jobs', after.jobs)
  {
    hide Numbered, SameOrder;
    var id := body.jobId;
    assert Alike(jobs[id], m.jobs[id]);
    FinishedAlike(jobs[id], m.jobs[id], body, mocked, now, after.jobs[id]);
    LikeUpdate(jobs, m.jobs, id, jobs'[id], after.jobs[id]);
    NumberedUpdate(m, after, id);
    OneFewer(jobs, m.jobs, jobs', after.jobs);
  }

  lemma FinishedAlike(job: Job, mock: MockJob, body: ResultBody, mocked: MockResultBody, now: nat, after: MockJob)
    requires SameResult(body, mocked)
    requires Alike(job, mock) && job.status.Running?
    requires after == mock.(status := Done, result := Some(mocked.blob), receipt := mocked.receipt, leaseUntil := 0)
    ensures Alike(Finished(job, body, now), after)
  {
  }

  lemma OneFewer(jobs: map<string, Job>, mocks: MockJobs, jobs': map<string, Job>, mocks': MockJobs)
    requires SameOrder(jobs, mocks) && jobs.Keys == mocks.Keys == jobs'.Keys == mocks'.Keys
    requires forall a :: a in jobs' && Pending(jobs'[a]) ==> jobs'[a] == jobs[a]
    requires forall a :: a in mocks ==> mocks'[a].seqNo == mocks[a].seqNo
    ensures SameOrder(jobs', mocks')
  {
  }

  // ---------------------------------------------------------------- nodes

  lemma SimNodes(a: State, b: State, m: MockState, node: string)
    requires Sim(a, m) && b.nodes.Keys == a.nodes.Keys + {node}
    requires b.jobs == a.jobs && b.index == a.index && b.idem == a.idem && b.jobsDone == a.jobsDone
    ensures Sim(b, m.(nodes := m.nodes + {node}))
  {
    FewerEntries(a, b);
  }

  lemma SimRegister(env: Env, st: State, m: MockState, req: Request, body: RegisterBody, now: nat)
    requires Sim(st, m) && WellFormedRegister(env, st, req, body, now)
    ensures var (kv, mock) := (Register(env, st, req, Fields(body), now), MockRegister(m, body.nodeId));
            kv.reply == mock.1 && Sim(kv.state, mock.0)
  {
    hide Sim, IsKey32, CheckHeaders;
    RegisterShape(env, st, req, Fields(body), now);
    var kv := Register(env, st, req, Fields(body), now);
    assert kv.reply == Registered(body.nodeId in st.nodes);
    SimKnows(st, m);
    SimNodes(st, kv.state, m, body.nodeId);
  }

  lemma SimKnows(st: State, m: MockState)
    requires Sim(st, m)
    ensures st.nodes.Keys == m.nodes
  {
  }

  lemma SimHeartbeat(env: Env, st: State, m: MockState, req: Request, body: Beat, now: nat)
    requires Sim(st, m) && WellFormedBeat(env, st, req, body, now)
    ensures var (kv, mock) := (Heartbeat(env, st, req, Fields(body), now), MockHeartbeat(m, body.nodeId));
            kv.reply == mock.1 && Sim(kv.state, mock.0)
  {
    hide Sim, CheckHeaders;
    SimKnows(st, m);
    if body.nodeId in st.nodes {
      HeartbeatShape(env, st, req, Fields(body), now);
      SignatureShape(env, st, req, st.nodes[body.nodeId].verifyKey, now);
      var kv := Heartbeat(env, st, req, Fields(body), now);
      assert kv.reply == Beaten;
      SimNodes(st, kv.state, m, body.nodeId);
      assert m.nodes + {body.nodeId} == m.nodes;
    }
  }

  // ---------------------------------------------------------------- runs

  predicate WellFormedRegister(env: Env, st: State, req: Request, body: RegisterBody, now: nat) {
    && IsNodeId(body.nodeId) && req.nodeId == body.nodeId && IsKey32(env, body.pubkey) && IsKey32(env, body.verifyKey)
    && Authentic(env, st, req, if body.nodeId in st.nodes then st.nodes[body.nodeId].verifyKey else body.verifyKey, now)
  }

  predicate WellFormedBeat(env: Env, st: State, req: Request, body: Beat, now: nat) {
    && IsNodeId(body.nodeId) && req.nodeId == body.nodeId
    && (body.nodeId in st.nodes ==>
          Authentic(env, st, req, st.nodes[body.nodeId].verifyKey, now)
          && body.wattage != Some(None) && body.measured != Some(None))
  }

  /** One request on the wire: the worker's event, and the receipt in its body as Python reads it. */
  datatype Wire = Wire(ev: Event, receipt: Option<PyDoc>)

  /** An authentic, well-formed request, and the clock and window it needs. */
  ghost predicate Admissible(env: Env, st: State, wire: Wire) {
    var ev := wire.ev;
    ev.Handle? &&
    match ev.call
    case DoRegister(body) => body.Fields? && WellFormedRegister(env, st, ev.req, body.value, ev.now)
    case DoHeartbeat(body) => body.Fields? && WellFormedBeat(env, st, ev.req, body.value, ev.now)
    case DoSubmit(oversize, body, jobId) =>
      && !oversize && body.Fields? && jobId !in st.jobs
      && IsNodeId(body.value.toNode)
      && (body.value.idempotencyKey.Some? ==> IsIdempotencyKey(body.value.idempotencyKey.value))
      && SortsLast(st, Slot(body.value.toNode, ev.now, jobId))
      && var gate := MemberGate(env, ev.req, ev.now);
         gate == Open || (gate.ByMember? && (gate.key, ev.req.memberSig.nonce) !in st.memberNonces)
    case DoPull(node) =>
      && IsNodeId(node) && ev.req.nodeId == node
      && (node in st.nodes ==>
            Authentic(env, st, ev.req, st.nodes[node].verifyKey, ev.now) && WindowSuffices(st, node, ev.now))
    case DoResult(body) =>
      && body.Fields? && IsJobId(body.value.jobId) && ev.req.nodeId in st.nodes
      && Authentic(env, st, ev.req, st.nodes[ev.req.nodeId].verifyKey, ev.now)
      && SameReceipt(body.value.receipt, wire.receipt)
  }

  /** The mock's answer to the same request. */
  function MockStep(m: MockState, wire: Wire): (MockState, Reply)
    requires Numbered(m)
  {
    var ev := wire.ev;
    if !ev.Handle? then (m, Refused(0))
    else
      match ev.call
      case DoRegister(Fields(body)) => MockRegister(m, body.nodeId)
      case DoHeartbeat(Fields(body)) => MockHeartbeat(m, body.nodeId)
      case DoSubmit(_, Fields(body), jobId) => Create(m, body, jobId, ev.now)
      case DoPull(node) => MockPull(m, node, ev.now)
      case DoResult(Fields(body)) => MockResult(m, ev.req.nodeId, MockResultBody(body.jobId, body.blob, wire.receipt))
      case _ => (m, Refused(0))
  }

  lemma SimThrough(st: State, m: MockState, gate: Gate, nonce: string, body: SubmitBody, jobId: string, now: nat)
    requires Sim(st, m) && jobId !in st.jobs && SortsLast(st, Slot(body.toNode, now, jobId))
    requires IsNodeId(body.toNode) && (body.idempotencyKey.Some? ==> IsIdempotencyKey(body.idempotencyKey.value))
    requires gate == Open || (gate.ByMember? && (gate.key, nonce) !in st.memberNonces)
    ensures var kv := SubmitThrough(st, gate, nonce, Fields(body), jobId, now);
            kv.reply == Create(m, body, jobId, now).1 && Sim(kv.state, Create(m, body, jobId, now).0)
  {
    hide Sim, Enqueue, Create, IsNodeId, IsIdempotencyKey;
    var st1 := Gated(st, gate, nonce, now);
    SimIgnoresNonces(st, st1, m);
    SimCreate(st1, m, body, jobId, now);
  }

  /** One admissible request: the two coordinators answer alike and stay alike. */
  lemma SimStep(env: Env, st: State, m: MockState, wire: Wire)
    requires Sim(st, m) && Admissible(env, st, wire)
    ensures Step(env, st, wire.ev).reply == MockStep(m, wire).1 && Sim(Step(env, st, wire.ev).state, MockStep(m, wire).0)
  {
    hide CheckHeaders, MemberGate, Pull, Result, Register, Heartbeat, SubmitThrough, WellFormedRegister, WellFormedBeat;
    var ev := wire.ev;
    match ev.call {
      case DoRegister(body) => SimRegister(env, st, m, ev.req, body.value, ev.now);
      case DoHeartbeat(body) => SimHeartbeat(env, st, m, ev.req, body.value, ev.now);
      case DoSubmit(_, body, jobId) =>
        SimThrough(st, m, MemberGate(env, ev.req, ev.now), ev.req.memberSig.nonce, body.value, jobId, ev.now);
      case DoPull(node) => SimAnyPull(env, st, m, ev.req, node, ev.now);
      case DoResult(body) =>
        SimResult(env, st, m, ev.req, body.value, MockResultBody(body.value.jobId, body.value.blob, wire.receipt), ev.now);
    }
  }

  lemma SimAnyPull(env: Env, st: State, m: MockState, req: Request, node: string, now: nat)
    requires Sim(st, m) && IsNodeId(node) && req.nodeId == node
    requires node in st.nodes ==> Authentic(env, st, req, st.nodes[node].verifyKey, now) && WindowSuffices(st, node, now)
    ensures Pull(env, st, req, node, now).reply == MockPull(m, node, now).1
    ensures Sim(Pull(env, st, req, node, now).state, MockPull(m, node, now).0)
  {
    if node in st.nodes {
      SignatureShape(env, st, req, st.nodes[node].verifyKey, now);
      SimPull(env, st, m, req, node, now);
    }
  }

  ghost predicate AdmissibleRun(env: Env, st: State, wires: seq<Wire>)
    decreases |wires|
  {
    wires != [] ==> Admissible(env, st, wires[0]) && AdmissibleRun(env, Step(env, st, wires[0].ev).state, wires[1..])
  }

  /** The worker's replies and its final state. */
  ghost predicate WorkerRuns(env: Env, st: State, wires: seq<Wire>, replies: seq<Reply>, end: State)
    decreases |wires|
  {
    if wires == [] then replies == [] && end == st
    else
      && replies != [] && replies[0] == Step(env, st, wires[0].ev).reply
      && WorkerRuns(env, Step(env, st, wires[0].ev).state, wires[1..], replies[1..], end)
  }

  /** The mock's replies, and its final state. */
  ghost predicate MockRuns(m: MockState, wires: seq<Wire>, replies: seq<Reply>, end: MockState)
    decreases |wires|
  {
    if wires == [] then replies == [] && end == m
    else
      && Numbered(m) && replies != [] && replies[0] == MockStep(m, wires[0]).1
      && MockRuns(MockStep(m, wires[0]).0, wires[1..], replies[1..], end)
  }

  /** Forward simulation: over any admissible run both give the same replies and end alike. */
  lemma {:induction false} RunsAgree(env: Env, st: State, m: MockState, wires: seq<Wire>)
      returns (replies: seq<Reply>, end: State, mocked: MockState)
    requires Sim(st, m) && AdmissibleRun(env, st, wires)
    ensures WorkerRuns(env, st, wires, replies, end) && MockRuns(m, wires, replies, mocked) && Sim(end, mocked)
    decreases |wires|
  {
    hide Step, MockStep, Admissible;
    if wires == [] {
      replies, end, mocked := [], st, m;
    } else {
      var (out, answer) := (Step(env, st, wires[0].ev), MockStep(m, wires[0]));
      SimStep(env, st, m, wires[0]);
      var rest;
      rest, end, mocked := RunsAgree(env, out.state, answer.0, wires[1..]);
      replies := [out.reply] + rest;
      assert replies[1..] == rest;
    }
  }

  /**
   * The two answers to a status request: the same, but for the receipt, where the worker shows the
   * JavaScript round trip of what the mock shows. That signs the same bytes, and is the same document
   * exactly when it holds no whole float.
   */
  ghost predicate SameAnswer(worker: Option<StatusView>, mock: Option<MockView>) {
    match (worker, mock)
    case (None, None) => true
    case (Some(NotDone(a)), Some(MockNotDone(b))) => a == b
    case (Some(Finally(blob, r)), Some(MockDone(blob', d))) =>
      && blob == blob' && (r.Some? <==> d.Some?)
      && (r.Some? ==>
            && FromJs(r.value) == JsRoundTrip(d.value)
            && CanonicalPy(FromJs(r.value)) == CanonicalPy(d.value)
            && (FromJs(r.value) == d.value <==> NoWholeFloats(d.value)))
    case _ => false
  }

  lemma StatusesAgree(st: State, m: MockState, jobId: string)
    requires Sim(st, m) && IsJobId(jobId)
    ensures SameAnswer(JobStatus(st, jobId), MockStatus(m, jobId))
  {
    hide JsRoundTrip, ToJs, FromJs, CanonicalPy, NoWholeFloats, Portable;
    if jobId in st.jobs {
      assert Alike(st.jobs[jobId], m.jobs[jobId]);
      if m.jobs[jobId].receipt.Some? {
        var d := m.jobs[jobId].receipt.value;
        CoordinatorRoundTrip(d);
        SignedBytesSurvive(d);
        ReturnsUnchangedExactly(d);
      }
    }
  }

  lemma EmptyAlike()
    ensures Sim(EMPTY, MockState({}, map[], map[], 0, 0))
  {
    assert forall n :: Queue(EMPTY, n) == {};
  }

  /**
   * From empty stores, any admissible run of registrations, heartbeats, submits, pulls and results gets
   * the same replies from both coordinators, and afterwards every status request gets the same answer,
   * receipts up to the JavaScript round trip.
   */
  lemma FreshRunsAgree(env: Env, wires: seq<Wire>) returns (replies: seq<Reply>, end: State, mocked: MockState)
    requires AdmissibleRun(env, EMPTY, wires)
    ensures WorkerRuns(env, EMPTY, wires, replies, end)
    ensures MockRuns(MockState({}, map[], map[], 0, 0), wires, replies, mocked)
    ensures forall id :: IsJobId(id) ==> SameAnswer(JobStatus(end, id), MockStatus(mocked, id))
  {
    hide Sim, AdmissibleRun, MockRuns, WorkerRuns, JobStatus, MockStatus, IsJobId, SameAnswer;
    EmptyAlike();
    replies, end, mocked := RunsAgree(env, EMPTY, MockState({}, map[], map[], 0, 0), wires);
    forall id | IsJobId(id) ensures SameAnswer(JobStatus(end, id), MockStatus(mocked, id)) {
      StatusesAgree(end, mocked, id);
    }
  }
}
