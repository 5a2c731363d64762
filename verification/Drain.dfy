/** A queue that gets no new work empties after a bounded number of pulls, even if no result ever arrives. */
module Drain {
  import opened Base
  import opened Keys
  import opened Store
  import opened Handlers
  import opened Shapes
  import opened Index

  // ---------------------------------------------------------------- sums

  ghost function Total(m: map<Slot, nat>): nat
    decreases |m|
  {
    if m == map[] then 0
    else
      var k :| k in m;
      m[k] + Total(m - {k})
  }

  lemma {:induction false} TotalRemove(m: map<Slot, nat>, k: Slot)
    requires k in m
    ensures Total(m) == m[k] + Total(m - {k})
    decreases |m|
  {
    var j :| j in m && Total(m) == m[j] + Total(m - {j});
    if j != k {
      TotalRemove(m - {j}, k);
      TotalRemove(m - {k}, j);
      assert m - {j} - {k} == m - {k} - {j};
    }
  }

  /** Fewer and smaller entries sum to less; strictly, when one entry shrank or a positive one is gone. */
  lemma {:induction false} TotalMonotone(a: map<Slot, nat>, b: map<Slot, nat>)
    requires b.Keys <= a.Keys && forall k :: k in b ==> b[k] <= a[k]
    ensures Total(b) <= Total(a)
    ensures forall k :: k in a && (if k in b then b[k] < a[k] else a[k] > 0) ==> Total(b) < Total(a)
    decreases |a|
  {
    if a == map[] {
      assert b == map[];
    } else {
      var k :| k in a;
      TotalRemove(a, k);
      if k in b { TotalRemove(b, k); }
      TotalMonotone(a - {k}, b - {k});
      assert k !in b ==> b - {k} == b;
      forall j | j in a && (if j in b then b[j] < a[j] else a[j] > 0) ensures Total(b) < Total(a) {
        if j != k { assert j in a - {k}; }
      }
    }
  }

  // ---------------------------------------------------------------- the measure

  /** Rounds a pending job has left: one per attempt still to make, and one to give it up. */
  function Weight(job: Job): nat {
    if job.attempts <= MAX_ATTEMPTS then MAX_ATTEMPTS + 1 - job.attempts else 0
  }

  function Weights(st: State, node: string): map<Slot, nat> {
    map k | k in Queue(st, node) :: if k.job in st.jobs then Weight(st.jobs[k.job]) else 0
  }

  ghost function Measure(st: State, node: string): nat {
    Total(Weights(st, node))
  }

  /** Attempt counts are in range, and a queued job has made none. */
  predicate Bounded(jobs: map<string, Job>) {
    forall id :: id in jobs ==> jobs[id].attempts <= MAX_ATTEMPTS && (jobs[id].status.Queued? ==> jobs[id].attempts == 0)
  }

  /** No lease on this node's jobs runs past `t`. */
  predicate LeasesBy(jobs: map<string, Job>, node: string, t: nat) {
    forall id :: id in jobs && jobs[id].toNode == node && jobs[id].status.Running? ==> jobs[id].leaseUntil <= t
  }

  /** One round: the measure never grows, and drops whenever the entry is this node's and not leased. */
  lemma RoundShrinks(st: State, k: Slot, who: string, now: nat, node: string)
    requires Agree(st.jobs, st.index) && Bounded(st.jobs)
    ensures var next := PullStep(st, k, who, now).state;
            && Bounded(next.jobs)
            && Measure(next, node) <= Measure(st, node)
            && (k.node == node && (Decide(st, k, who, now).GiveUp? || Decide(st, k, who, now).Deliver?) ==>
                  Measure(next, node) < Measure(st, node))
  {
    hide PullStep, Measure;
    var next := PullStep(st, k, who, now).state;
    StepShape(st, k, who, now);
    RoundBounded(st, k, who, now);
    hide Bounded;
    if Decide(st, k, who, now).GiveUp? || Decide(st, k, who, now).Deliver? {
      assert SlotOf(st.jobs[k.job]) == k;
      WeightsMove(st, next, k, node);
    }
  }

  lemma RoundBounded(st: State, k: Slot, who: string, now: nat)
    requires Bounded(st.jobs)
    ensures Bounded(PullStep(st, k, who, now).state.jobs)
  {
    hide PullStep;
    RoundJobs(st, k, who, now);
  }

  /** Only one entry's weight moves, and it moves down. */
  lemma WeightsMove(before: State, after: State, k: Slot, node: string)
    requires Agree(before.jobs, before.index) && k in before.index
    requires after.index == before.index || after.index == before.index - {k}
    requires k.job in after.jobs && after.jobs == before.jobs[k.job := after.jobs[k.job]]
    requires Weight(before.jobs[k.job]) > 0
    requires after.index == before.index ==> Weight(after.jobs[k.job]) < Weight(before.jobs[k.job])
    ensures Measure(after, node) <= Measure(before, node)
    ensures k.node == node ==> Measure(after, node) < Measure(before, node)
  {
    var (a, b) := (Weights(before, node), Weights(after, node));
    forall j | j in b ensures j in a && (j != k ==> b[j] == a[j]) && (j == k ==> b[j] < a[j]) {
      if j.job == k.job { assert SlotOf(before.jobs[j.job]) == j; }
    }
    TotalMonotone(a, b);
    assert k.node == node ==> k in a && (if k in b then b[k] < a[k] else a[k] > 0);
  }

  lemma {:induction false} LoopShrinks(st: State, keys: seq<Slot>, who: string, now: nat, room: nat, node: string)
    requires Agree(st.jobs, st.index) && Bounded(st.jobs)
    ensures var next := PullLoop(st, keys, who, now, room).state;
            && Bounded(next.jobs) && Measure(next, node) <= Measure(st, node)
            && (keys != [] && room > 0 && keys[0].node == node
                && (Decide(st, keys[0], who, now).GiveUp? || Decide(st, keys[0], who, now).Deliver?) ==>
                  Measure(next, node) < Measure(st, node))
    decreases |keys|
  {
    if keys != [] && room > 0 {
      var next, left, _ := LoopUnfold(st, keys, who, now, room);
      RoundShrinks(st, keys[0], who, now, node);
      StepAgrees(st, keys[0], who, now);
      LoopShrinks(next, keys[1..], who, now, left, node);
    }
  }

  // ---------------------------------------------------------------- leases stay short

  lemma {:induction false} LoopLeases(st: State, keys: seq<Slot>, who: string, now: nat, room: nat, node: string, t: nat)
    requires LeasesBy(st.jobs, node, t) && (who == node ==> t <= now + LEASE_MS)
    ensures LeasesBy(PullLoop(st, keys, who, now, room).state.jobs, node, if who == node then now + LEASE_MS else t)
    decreases |keys|
  {
    if keys != [] && room > 0 {
      var next, left, _ := LoopUnfold(st, keys, who, now, room);
      RoundLeasesAny(st, keys[0], who, now, node, t);
      LoopLeases(next, keys[1..], who, now, left, node, if who == node then now + LEASE_MS else t);
    }
  }

  lemma RoundLeasesAny(st: State, k: Slot, who: string, now: nat, node: string, t: nat)
    requires LeasesBy(st.jobs, node, t) && (who == node ==> t <= now + LEASE_MS)
    ensures LeasesBy(PullStep(st, k, who, now).state.jobs, node, if who == node then now + LEASE_MS else t)
  {
    hide PullStep;
    RoundJobs(st, k, who, now);
  }

  // ---------------------------------------------------------------- events

  /** The event is a pull by the node that the coordinator answered. */
  ghost predicate PulledBy(env: Env, st: State, ev: Event, node: string) {
    ev.Handle? && ev.call.DoPull? && ev.call.nodeId == node && Pull(env, st, ev.req, node, ev.now).reply.Pulled?
  }

  /** What the drain carries from event to event. */
  ghost predicate Draining(st: State, node: string, free: nat) {
    Inv(st) && Bounded(st.jobs) && LeasesBy(st.jobs, node, free)
  }

  lemma FirstIsReady(st: State, node: string, now: nat, free: nat)
    requires Draining(st, node, free) && free <= now && Queue(st, node) != {}
    ensures var w := ListQueue(st, node, PULL_MAX * 4);
            w != [] && w[0].node == node && (Decide(st, w[0], node, now).GiveUp? || Decide(st, w[0], node, now).Deliver?)
  {
    hide Measure, Weights, WithinCap;
    var w := ListQueue(st, node, PULL_MAX * 4);
    assert |Queue(st, node)| > 0;
    assert w[0] in Queue(st, node);
    assert SlotOf(st.jobs[w[0].job]) == w[0];
  }

  lemma DrainPull(env: Env, st: State, req: Request, who: string, now: nat, node: string, free: nat)
    requires Draining(st, node, free)
    requires who == node ==> free <= now
    ensures var out := Pull(env, st, req, who, now);
            && Draining(out.state, node, if who == node && out.reply.Pulled? then now + LEASE_MS else free)
            && Measure(out.state, node) <= Measure(st, node)
            && (who == node && out.reply.Pulled? && Queue(st, node) != {} ==> Measure(out.state, node) < Measure(st, node))
            && Queue(out.state, node) <= Queue(st, node)
  {
    hide Pull, PullLoop, CheckHeaders;
    PullShape(env, st, req, who, now);
    PullKeepsInv(env, st, req, who, now);
    if Pull(env, st, req, who, now).reply.Pulled? {
      var st1 := Noted(st, req, now);
      FewerEntries(st, st1);
      assert Weights(st1, node) == Weights(st, node);
      assert Queue(st1, node) == Queue(st, node);
      DrainLoop(st1, who, now, node, free);
    }
  }

  lemma DrainLoop(st: State, who: string, now: nat, node: string, free: nat)
    requires Draining(st, node, free) && (who == node ==> free <= now)
    ensures var next := PullLoop(st, ListQueue(st, who, PULL_MAX * 4), who, now, PULL_MAX).state;
            && Bounded(next.jobs) && LeasesBy(next.jobs, node, if who == node then now + LEASE_MS else free)
            && Measure(next, node) <= Measure(st, node) && Queue(next, node) <= Queue(st, node)
            && (who == node && Queue(st, node) != {} ==> Measure(next, node) < Measure(st, node))
  {
    var w := ListQueue(st, who, PULL_MAX * 4);
    LoopShrinks(st, w, who, now, PULL_MAX, node);
    LoopLeases(st, w, who, now, PULL_MAX, node, free);
    LoopFrame(st, w, who, now, PULL_MAX);
    if who == node && Queue(st, node) != {} { FirstIsReady(st, node, now, free); }
  }

  lemma DrainResult(env: Env, st: State, req: Request, checked: Checked<ResultBody>, now: nat, node: string, free: nat)
    requires Draining(st, node, free)
    ensures var out := Result(env, st, req, checked, now);
            && Draining(out.state, node, free)
            && Measure(out.state, node) <= Measure(st, node)
            && Queue(out.state, node) <= Queue(st, node)
  {
    var out := Result(env, st, req, checked, now);
    ResultShape(env, st, req, checked, now);
    ResultKeepsInv(env, st, req, checked, now);
    if out.reply == Accepted(false) {
      var id := checked.value.jobId;
      JobFinished(st, out.state, id, node, free);
    } else {
      assert Weights(out.state, node) == Weights(st, node);
    }
  }

  lemma JobFinished(st: State, out: State, id: string, node: string, free: nat)
    requires Draining(st, node, free) && id in st.jobs && id in out.jobs
    requires out.jobs == st.jobs[id := out.jobs[id]] && out.index == st.index - {SlotOf(st.jobs[id])}
    requires out.jobs[id].status.Done? && out.jobs[id].attempts == st.jobs[id].attempts
    ensures Bounded(out.jobs) && LeasesBy(out.jobs, node, free)
    ensures Measure(out, node) <= Measure(st, node) && Queue(out, node) <= Queue(st, node)
  {
    var (a, b) := (Weights(st, node), Weights(out, node));
    forall j | j in b ensures j in a && b[j] == a[j] {
      assert j in st.index && SlotOf(st.jobs[j.job]) == j;
    }
    TotalMonotone(a, b);
  }

  lemma DrainSubmit(st: State, gate: Gate, nonce: string, checked: Checked<SubmitBody>, jobId: string, now: nat, node: string, free: nat)
    requires Draining(st, node, free) && jobId !in st.jobs
    requires checked.Fields? ==> checked.value.toNode != node
    ensures var out := SubmitThrough(st, gate, nonce, checked, jobId, now).state;
            && Draining(out, node, free)
            && Measure(out, node) == Measure(st, node)
            && Queue(out, node) == Queue(st, node)
  {
    var out := SubmitThrough(st, gate, nonce, checked, jobId, now);
    SubmitShape(st, gate, nonce, checked, jobId, now);
    SubmitKeepsInv(st, gate, nonce, checked, jobId, now);
    if out.reply == Submitted(jobId, false) {
      OtherJobAdded(st, out.state, NewJob(checked.value, jobId, now), node, free);
    } else {
      assert Weights(out.state, node) == Weights(st, node);
    }
  }

  lemma OtherJobAdded(st: State, out: State, job: Job, node: string, free: nat)
    requires Draining(st, node, free) && job.jobId !in st.jobs && job.toNode != node
    requires out.jobs == st.jobs[job.jobId := job] && out.index == st.index[SlotOf(job) := Some(job.jobId)]
    requires job.status.Queued? && job.attempts == 0
    ensures Bounded(out.jobs) && LeasesBy(out.jobs, node, free)
    ensures Queue(out, node) == Queue(st, node) && Measure(out, node) == Measure(st, node)
  {
    SameWeights(st, out, job, node);
  }

  lemma SameWeights(st: State, out: State, job: Job, node: string)
    requires Agree(st.jobs, st.index) && job.jobId !in st.jobs && job.toNode != node
    requires out.jobs == st.jobs[job.jobId := job] && out.index == st.index[SlotOf(job) := Some(job.jobId)]
    ensures Queue(out, node) == Queue(st, node) && Weights(out, node) == Weights(st, node)
  {
    assert forall k :: k in st.index ==> k.job in st.jobs;
  }

  /** Not a submit to the node; and a pull by the node comes no sooner than the leases end. */
  ghost predicate Quiet(env: Env, st: State, ev: Event, node: string, free: nat) {
    && Handled(st, ev)
    && (ev.call.DoSubmit? && ev.call.submit.Fields? ==> ev.call.submit.value.toNode != node)
    && (ev.call.DoPull? && ev.call.nodeId == node ==> free <= ev.now)
  }

  ghost function NextFree(env: Env, st: State, ev: Event, node: string, free: nat): nat {
    if PulledBy(env, st, ev, node) then ev.now + LEASE_MS else free
  }

  lemma DrainStep(env: Env, st: State, ev: Event, node: string, free: nat)
    requires Draining(st, node, free) && Quiet(env, st, ev, node, free)
    ensures var next := Step(env, st, ev).state;
            && Draining(next, node, NextFree(env, st, ev, node, free))
            && Measure(next, node) <= Measure(st, node)
            && (PulledBy(env, st, ev, node) && Queue(st, node) != {} ==> Measure(next, node) < Measure(st, node))
            && Queue(next, node) <= Queue(st, node)
  {
    match ev.call {
      case DoSubmit(oversize, body, jobId) =>
        if !oversize {
          DrainSubmit(st, MemberGate(env, ev.req, ev.now), ev.req.memberSig.nonce, body, jobId, ev.now, node, free);
        }
      case DoPull(who) => DrainPull(env, st, ev.req, who, ev.now, node, free);
      case DoResult(body) => DrainResult(env, st, ev.req, body, ev.now, node, free);
      case _ =>
        var next := Step(env, st, ev).state;
        NodeCallsSpareJobs(env, st, ev);
        FewerEntries(st, next);
        assert Queue(next, node) == Queue(st, node) && Weights(next, node) == Weights(st, node);
    }
  }

  // ---------------------------------------------------------------- runs

  ghost predicate QuietRun(env: Env, st: State, events: seq<Event>, node: string, free: nat)
    decreases |events|
  {
    events != [] ==>
      && Quiet(env, st, events[0], node, free)
      && QuietRun(env, Step(env, st, events[0]).state, events[1..], node, NextFree(env, st, events[0], node, free))
  }

  /** How many pulls by the node the run answers. */
  ghost function PullCount(env: Env, st: State, events: seq<Event>, node: string): nat
    decreases |events|
  {
    if events == [] then 0
    else (if PulledBy(env, st, events[0], node) then 1 else 0) + PullCount(env, Step(env, st, events[0]).state, events[1..], node)
  }

  lemma {:induction false} DrainRun(env: Env, st: State, events: seq<Event>, node: string, free: nat)
    requires Draining(st, node, free) && QuietRun(env, st, events, node, free)
    ensures var end := Run(env, st, events);
            && Inv(end) && Queue(end, node) <= Queue(st, node)
            && (Queue(end, node) != {} ==> Measure(end, node) + PullCount(env, st, events, node) <= Measure(st, node))
    decreases |events|
  {
    if events != [] {
      var next := Step(env, st, events[0]).state;
      DrainStep(env, st, events[0], node, free);
      DrainRun(env, next, events[1..], node, NextFree(env, st, events[0], node, free));
    }
  }

  lemma {:induction false} TotalBounds(m: map<Slot, nat>)
    requires forall k :: k in m ==> 1 <= m[k] <= 6
    ensures |m| <= Total(m) <= 6 * |m|
    decreases |m|
  {
    if m != map[] {
      var k :| k in m;
      TotalRemove(m, k);
      TotalBounds(m - {k});
      assert (m - {k}).Keys == m.Keys - {k} && |m.Keys| == |m| && |(m - {k}).Keys| == |m - {k}|;
    }
  }

  lemma MeasureBounds(st: State, node: string)
    requires Inv(st) && Bounded(st.jobs)
    ensures |Queue(st, node)| <= Measure(st, node) <= (MAX_ATTEMPTS + 1) * |Queue(st, node)|
  {
    var m := Weights(st, node);
    TotalBounds(m);
    assert m.Keys == Queue(st, node) && |m| == |m.Keys|;
  }

  /**
   * Drain bound: with no new submits for a node and its pulls a lease apart, six pulls per waiting job leave
   * every one of its jobs terminal, whatever else happens meanwhile and even if no result is ever posted.
   */
  lemma DrainBound(env: Env, st: State, events: seq<Event>, node: string, free: nat)
    requires Draining(st, node, free) && QuietRun(env, st, events, node, free)
    requires PullCount(env, st, events, node) >= 6 * |Queue(st, node)|
    ensures var end := Run(env, st, events);
            Queue(end, node) == {} && forall id :: id in end.jobs && end.jobs[id].toNode == node ==> !Pending(end.jobs[id])
  {
    DrainRun(env, st, events, node, free);
    MeasureBounds(st, node);
    var end := Run(env, st, events);
    if Queue(end, node) != {} {
      MeasureOfRest(env, st, events, node, free);
    }
    PendingIsQueued(end, node);
  }

  lemma PendingIsQueued(st: State, node: string)
    requires Agree(st.jobs, st.index)
    ensures forall id :: id in st.jobs && st.jobs[id].toNode == node && Pending(st.jobs[id]) ==>
              SlotOf(st.jobs[id]) in Queue(st, node)
  {
  }

  lemma {:induction false} MeasureOfRest(env: Env, st: State, events: seq<Event>, node: string, free: nat)
    requires Draining(st, node, free) && QuietRun(env, st, events, node, free)
    requires Queue(Run(env, st, events), node) != {}
    ensures Measure(Run(env, st, events), node) > 0
    decreases |events|
  {
    if events == [] {
      MeasureBounds(st, node);
    } else {
      DrainStep(env, st, events[0], node, free);
      MeasureOfRest(env, Step(env, st, events[0]).state, events[1..], node, NextFree(env, st, events[0], node, free));
    }
  }

  /** At the cap that is at most six hundred pulls. */
  lemma DrainAtCap(st: State, node: string)
    requires Inv(st)
    ensures 6 * |Queue(st, node)| <= 600
  {
    assert |Queue(st, node)| <= MAX_QUEUED_PER_NODE;
  }

  // ---------------------------------------------------------------- the hypotheses are met

  /** Attempt counts stay in range over every run, so a drain can start from any reachable store. */
  lemma BoundedStep(env: Env, st: State, ev: Event)
    requires Inv(st) && Bounded(st.jobs) && Handled(st, ev)
    ensures Bounded(Step(env, st, ev).state.jobs)
  {
    hide Measure, Bounded, SubmitThrough, Pull, Result;
    match ev.call {
      case DoSubmit(oversize, body, jobId) =>
        if !oversize { BoundedSubmit(st, MemberGate(env, ev.req, ev.now), ev.req.memberSig.nonce, body, jobId, ev.now); }
      case DoPull(who) => BoundedPull(env, st, ev.req, who, ev.now);
      case DoResult(body) => BoundedResult(env, st, ev.req, body, ev.now);
      case _ => NodeCallsSpareJobs(env, st, ev);
    }
  }

  lemma BoundedSubmit(st: State, gate: Gate, nonce: string, checked: Checked<SubmitBody>, jobId: string, now: nat)
    requires Bounded(st.jobs)
    ensures Bounded(SubmitThrough(st, gate, nonce, checked, jobId, now).state.jobs)
  {
    hide SubmitThrough;
    SubmitShape(st, gate, nonce, checked, jobId, now);
  }

  lemma BoundedPull(env: Env, st: State, req: Request, who: string, now: nat)
    requires Inv(st) && Bounded(st.jobs)
    ensures Bounded(Pull(env, st, req, who, now).state.jobs)
  {
    hide Pull, Measure, PullLoop, CheckHeaders;
    PullShape(env, st, req, who, now);
    if Pull(env, st, req, who, now).reply.Pulled? {
      var st1 := Noted(st, req, now);
      LoopShrinks(st1, ListQueue(st1, who, PULL_MAX * 4), who, now, PULL_MAX, who);
    }
  }

  lemma BoundedResult(env: Env, st: State, req: Request, checked: Checked<ResultBody>, now: nat)
    requires Inv(st) && Bounded(st.jobs)
    ensures Bounded(Result(env, st, req, checked, now).state.jobs)
  {
    hide Result, CheckHeaders;
    ResultShape(env, st, req, checked, now);
  }

  lemma {:induction false} BoundedRun(env: Env, st: State, events: seq<Event>)
    requires Inv(st) && Bounded(st.jobs) && HandledRun(env, st, events)
    ensures Inv(Run(env, st, events)) && Bounded(Run(env, st, events).jobs)
    decreases |events|
  {
    if events != [] {
      StepKeepsInv(env, st, events[0]);
      BoundedStep(env, st, events[0]);
      BoundedRun(env, Step(env, st, events[0]).state, events[1..]);
    }
  }
}
