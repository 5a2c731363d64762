/** Delivery history, forward-only status and duplicate-free answers, whatever the index holds. */
module Leases {
  import opened Keys
  import opened Store
  import opened Handlers
  import opened Shapes

  /** For every job id ever drawn, the times at which a pull delivered the job. */
  type Ledger = map<string, seq<nat>>

  ghost function Times(led: Ledger, id: string): seq<nat> {
    if id in led then led[id] else []
  }

  ghost function Extend(led: Ledger, jobs: seq<Envelope>, now: nat): Ledger
    decreases |jobs|
  {
    if jobs == [] then led
    else Extend(led[jobs[0].jobId := Times(led, jobs[0].jobId) + [now]], jobs[1..], now)
  }

  lemma {:induction false} ExtendAppend(led: Ledger, a: seq<Envelope>, b: seq<Envelope>, now: nat)
    ensures Extend(led, a + b, now) == Extend(Extend(led, a, now), b, now)
    decreases |a|
  {
    if a == [] {
      assert a + b == b;
    } else {
      assert (a + b)[1..] == a[1..] + b;
      ExtendAppend(led[a[0].jobId := Times(led, a[0].jobId) + [now]], a[1..], b, now);
    }
  }

  /** The ledger after an event and its reply: a submit draws an id, a pull delivers. */
  ghost function NextLedger(led: Ledger, ev: Event, reply: Reply): Ledger {
    if !ev.Handle? then led
    else if ev.call.DoSubmit? then led[ev.call.jobId := []]
    else if ev.call.DoPull? && reply.Pulled? then Extend(led, reply.jobs, ev.now)
    else led
  }

  /** No id is drawn twice. Expiry and resurfacing entries may happen at any point. */
  predicate DrawsFresh(led: Ledger, ev: Event) {
    ev.Handle? && ev.call.DoSubmit? ==> ev.call.jobId !in led
  }

  // ---------------------------------------------------------------- one job's record

  /** Deliveries one lease apart. */
  ghost predicate Spaced(h: seq<nat>) {
    forall i :: 0 <= i < |h| - 1 ==> h[i] + LEASE_MS <= h[i + 1]
  }

  ghost predicate Recorded(job: Job, h: seq<nat>) {
    && |h| == job.attempts <= MAX_ATTEMPTS && Spaced(h)
    && (job.status.Queued? <==> job.attempts == 0)
    && (job.status.Running? ==> job.leaseUntil == h[|h| - 1] + LEASE_MS)
    && (job.status.Failed? ==> job.attempts == MAX_ATTEMPTS && job.updatedMs >= h[|h| - 1] + LEASE_MS)
  }

  ghost predicate Book(jobs: map<string, Job>, led: Ledger) {
    forall id :: id in jobs ==> id in led && jobs[id].jobId == id && Recorded(jobs[id], led[id])
  }

  lemma DeliverRecorded(job: Job, h: seq<nat>, now: nat)
    requires Recorded(job, h)
    requires job.status.Queued? || (job.status.Running? && job.leaseUntil <= now && job.attempts < MAX_ATTEMPTS)
    ensures Recorded(Leased(job, now), h + [now])
  {
  }

  lemma BookRound(st: State, k: Slot, node: string, now: nat, led: Ledger)
    requires Book(st.jobs, led)
    ensures var one := PullStep(st, k, node, now); Book(one.state.jobs, Extend(led, one.jobs, now))
  {
    hide PullStep, Recorded;
    var one := PullStep(st, k, node, now);
    RoundJobs(st, k, node, now);
    match Decide(st, k, node, now) {
      case Deliver =>
        var id := st.index[k].value;
        DeliverRecorded(st.jobs[id], led[id], now);
        assert Extend(led, one.jobs, now) == led[id := led[id] + [now]];
      case GiveUp =>
        var id := st.index[k].value;
        GivenUpRecorded(st.jobs[id], led[id], now);
      case _ =>
    }
  }

  lemma GivenUpRecorded(job: Job, h: seq<nat>, now: nat)
    requires Recorded(job, h) && job.status.Running? && job.attempts >= MAX_ATTEMPTS && job.leaseUntil <= now
    ensures Recorded(GivenUp(job, now), h)
  {
  }

  lemma {:induction false} BookLoop(st: State, keys: seq<Slot>, node: string, now: nat, room: nat, led: Ledger)
    requires Book(st.jobs, led)
    ensures var walk := PullLoop(st, keys, node, now, room); Book(walk.state.jobs, Extend(led, walk.jobs, now))
    decreases |keys|
  {
    if keys != [] && room > 0 {
      var next, left, rest := LoopUnfold(st, keys, node, now, room);
      var one := PullStep(st, keys[0], node, now);
      BookRound(st, keys[0], node, now, led);
      BookLoop(next, keys[1..], node, now, left, Extend(led, one.jobs, now));
      ExtendAppend(led, one.jobs, rest.jobs, now);
    }
  }

  lemma BookDraw(jobs: map<string, Job>, led: Ledger, jobId: string)
    requires Book(jobs, led) && jobId !in led
    ensures Book(jobs, led[jobId := []])
  {
  }

  lemma BookSubmit(st: State, led: Ledger, gate: Gate, nonce: string, checked: Checked<SubmitBody>, jobId: string, now: nat)
    requires Book(st.jobs, led) && jobId !in led
    ensures Book(SubmitThrough(st, gate, nonce, checked, jobId, now).state.jobs, led[jobId := []])
  {
    SubmitShape(st, gate, nonce, checked, jobId, now);
  }

  lemma BookResult(env: Env, st: State, led: Ledger, req: Request, checked: Checked<ResultBody>, now: nat)
    requires Book(st.jobs, led)
    ensures Book(Result(env, st, req, checked, now).state.jobs, led)
  {
    ResultShape(env, st, req, checked, now);
  }

  lemma BookPull(env: Env, st: State, led: Ledger, req: Request, node: string, now: nat)
    requires Book(st.jobs, led)
    ensures var out := Pull(env, st, req, node, now);
            Book(out.state.jobs, if out.reply.Pulled? then Extend(led, out.reply.jobs, now) else led)
  {
    PullShape(env, st, req, node, now);
    if Pull(env, st, req, node, now).reply.Pulled? {
      var st1 := Noted(st, req, now);
      BookLoop(st1, ListQueue(st1, node, PULL_MAX * 4), node, now, PULL_MAX, led);
    }
  }

  lemma BookStep(env: Env, st: State, led: Ledger, ev: Event)
    requires Book(st.jobs, led) && DrawsFresh(led, ev)
    ensures Book(Step(env, st, ev).state.jobs, NextLedger(led, ev, Step(env, st, ev).reply))
  {
    if ev.Handle? {
      match ev.call {
        case DoSubmit(oversize, body, jobId) =>
          if oversize {
            BookDraw(st.jobs, led, jobId);
          } else {
            BookSubmit(st, led, MemberGate(env, ev.req, ev.now), ev.req.memberSig.nonce, body, jobId, ev.now);
          }
        case DoPull(node) => BookPull(env, st, led, ev.req, node, ev.now);
        case DoResult(body) => BookResult(env, st, led, ev.req, body, ev.now);
        case _ => NodeCallsSpareJobs(env, st, ev);
      }
    } else {
      StoreEventsShape(env, st, ev);
    }
  }

  // ---------------------------------------------------------------- whole runs

  ghost predicate FreshRun(env: Env, st: State, led: Ledger, events: seq<Event>)
    decreases |events|
  {
    events != [] ==>
      && DrawsFresh(led, events[0])
      && FreshRun(env, Step(env, st, events[0]).state, NextLedger(led, events[0], Step(env, st, events[0]).reply), events[1..])
  }

  ghost function LedgerAfter(env: Env, st: State, led: Ledger, events: seq<Event>): Ledger
    decreases |events|
  {
    if events == [] then led
    else LedgerAfter(env, Step(env, st, events[0]).state, NextLedger(led, events[0], Step(env, st, events[0]).reply), events[1..])
  }

  lemma {:induction false} BookRun(env: Env, st: State, led: Ledger, events: seq<Event>)
    requires Book(st.jobs, led) && FreshRun(env, st, led, events)
    ensures Book(Run(env, st, events).jobs, LedgerAfter(env, st, led, events))
    decreases |events|
  {
    if events != [] {
      BookStep(env, st, led, events[0]);
      BookRun(env, Step(env, st, events[0]).state, NextLedger(led, events[0], Step(env, st, events[0]).reply), events[1..]);
    }
  }

  lemma {:induction false} SpacedApart(h: seq<nat>, i: nat, j: nat)
    requires Spaced(h) && i <= j < |h|
    ensures h[j] >= h[i] + (j - i) * LEASE_MS
    decreases j - i
  {
    if i < j { SpacedApart(h, i, j - 1); }
  }

  /**
   * Lease history: over any run, however records expire and index entries resurface, the deliveries of a
   * job are its attempts, at most five and a lease apart; queued means undelivered; and a failed job has
   * used all five and failed no earlier than five leases after the first.
   */
  lemma LeaseHistory(env: Env, events: seq<Event>, id: string)
    requires FreshRun(env, EMPTY, map[], events) && id in Run(env, EMPTY, events).jobs
    ensures var job := Run(env, EMPTY, events).jobs[id];
            var h := Times(LedgerAfter(env, EMPTY, map[], events), id);
            && |h| == job.attempts <= 5
            && (forall i, j :: 0 <= i < j < |h| ==> h[j] >= h[i] + 600_000)
            && (job.status.Queued? <==> h == [])
            && (job.status.Failed? ==> |h| == 5 && job.updatedMs >= h[0] + 5 * 600_000)
  {
    BookRun(env, EMPTY, map[], events);
    var h := Times(LedgerAfter(env, EMPTY, map[], events), id);
    forall i, j | 0 <= i < j < |h| ensures h[j] >= h[i] + 600_000 { SpacedApart(h, i, j); }
    if |h| == 5 { SpacedApart(h, 0, 4); }
  }

  // ---------------------------------------------------------------- status only moves forward

  function Rank(s: Status): nat {
    match s
    case Queued => 0
    case Running => 1
    case Done => 2
    case Failed => 2
  }

  /** A later view of a job: never back, and unchanged for good once terminal. */
  predicate Later(a: Job, b: Job) {
    && Rank(a.status) <= Rank(b.status)
    && (a.status.Done? || a.status.Failed? ==> b == a)
    && b.jobId == a.jobId && b.toNode == a.toNode && b.blob == a.blob && b.replyKey == a.replyKey && b.createdMs == a.createdMs
  }

  predicate AllLater(before: map<string, Job>, after: map<string, Job>) {
    forall id :: id in before && id in after ==> Later(before[id], after[id])
  }

  lemma LaterRound(st: State, k: Slot, node: string, now: nat)
    ensures AllLater(st.jobs, PullStep(st, k, node, now).state.jobs)
    ensures PullStep(st, k, node, now).state.jobs.Keys == st.jobs.Keys
  {
    hide PullStep;
    var after := PullStep(st, k, node, now).state.jobs;
    RoundJobs(st, k, node, now);
    match Decide(st, k, node, now) {
      case GiveUp => LaterOne(st.jobs, after, st.index[k].value, GivenUp(st.jobs[st.index[k].value], now));
      case Deliver => LaterOne(st.jobs, after, st.index[k].value, Leased(st.jobs[st.index[k].value], now));
      case _ =>
    }
  }

  lemma LaterOne(before: map<string, Job>, after: map<string, Job>, id: string, job: Job)
    requires id in before && after == before[id := job] && Later(before[id], job)
    ensures AllLater(before, after) && after.Keys == before.Keys
  {
  }

  lemma {:induction false} LaterLoop(st: State, keys: seq<Slot>, node: string, now: nat, room: nat)
    ensures AllLater(st.jobs, PullLoop(st, keys, node, now, room).state.jobs)
    decreases |keys|
  {
    if keys != [] && room > 0 {
      var next, left, _ := LoopUnfold(st, keys, node, now, room);
      LaterRound(st, keys[0], node, now);
      LaterLoop(next, keys[1..], node, now, left);
    }
  }

  lemma LaterPull(env: Env, st: State, req: Request, node: string, now: nat)
    ensures AllLater(st.jobs, Pull(env, st, req, node, now).state.jobs)
    ensures Pull(env, st, req, node, now).state.jobs.Keys == st.jobs.Keys
  {
    PullShape(env, st, req, node, now);
    var st1 := Noted(st, req, now);
    LaterLoop(st1, ListQueue(st1, node, PULL_MAX * 4), node, now, PULL_MAX);
    LoopFrame(st1, ListQueue(st1, node, PULL_MAX * 4), node, now, PULL_MAX);
  }

  lemma LaterSubmit(st: State, gate: Gate, nonce: string, checked: Checked<SubmitBody>, jobId: string, now: nat)
    requires jobId !in st.jobs
    ensures var after := SubmitThrough(st, gate, nonce, checked, jobId, now).state.jobs;
            AllLater(st.jobs, after) && after.Keys <= st.jobs.Keys + {jobId}
  {
    SubmitShape(st, gate, nonce, checked, jobId, now);
  }

  lemma LaterResult(env: Env, st: State, req: Request, checked: Checked<ResultBody>, now: nat)
    requires forall id :: id in st.jobs ==> st.jobs[id].jobId == id
    ensures var after := Result(env, st, req, checked, now).state.jobs;
            AllLater(st.jobs, after) && after.Keys == st.jobs.Keys
  {
    ResultShape(env, st, req, checked, now);
  }

  /** One event, of any kind, moves no job backwards and makes no job under an old id. */
  lemma LaterStep(env: Env, st: State, led: Ledger, ev: Event)
    requires Book(st.jobs, led) && DrawsFresh(led, ev)
    ensures AllLater(st.jobs, Step(env, st, ev).state.jobs)
    ensures forall id :: id in led && id in Step(env, st, ev).state.jobs ==> id in st.jobs
  {
    if ev.Handle? {
      match ev.call {
        case DoSubmit(oversize, body, jobId) =>
          if !oversize {
            LaterSubmit(st, MemberGate(env, ev.req, ev.now), ev.req.memberSig.nonce, body, jobId, ev.now);
          }
        case DoPull(node) => LaterPull(env, st, ev.req, node, ev.now);
        case DoResult(body) => LaterResult(env, st, ev.req, body, ev.now);
        case _ => NodeCallsSpareJobs(env, st, ev);
      }
    } else {
      StoreEventsShape(env, st, ev);
    }
  }

  lemma {:induction false} LedgerGrows(led: Ledger, jobs: seq<Envelope>, now: nat)
    ensures led.Keys <= Extend(led, jobs, now).Keys
    decreases |jobs|
  {
    if jobs != [] { LedgerGrows(led[jobs[0].jobId := Times(led, jobs[0].jobId) + [now]], jobs[1..], now); }
  }

  /** A record that is gone stays gone, because its id is never drawn again. */
  lemma {:induction false} GoneStaysGone(env: Env, st: State, led: Ledger, events: seq<Event>, id: string)
    requires Book(st.jobs, led) && FreshRun(env, st, led, events) && id in led && id !in st.jobs
    ensures id !in Run(env, st, events).jobs
    decreases |events|
  {
    if events != [] {
      var out := Step(env, st, events[0]);
      BookStep(env, st, led, events[0]);
      LaterStep(env, st, led, events[0]);
      if out.reply.Pulled? { LedgerGrows(led, out.reply.jobs, events[0].now); }
      GoneStaysGone(env, out.state, NextLedger(led, events[0], out.reply), events[1..], id);
    }
  }

  lemma LaterTransitive(a: Job, b: Job, c: Job)
    requires Later(a, b) && Later(b, c)
    ensures Later(a, c)
  {
  }

  /**
   * Terminal stability: through any run, with expiry and resurfaced or duplicated index entries between
   * requests, a job's status only moves forward and a terminal job's record never changes again.
   */
  lemma {:induction false} StatusOnlyForward(env: Env, st: State, led: Ledger, events: seq<Event>, id: string)
    requires Book(st.jobs, led) && FreshRun(env, st, led, events)
    requires id in st.jobs && id in Run(env, st, events).jobs
    ensures Later(st.jobs[id], Run(env, st, events).jobs[id])
    decreases |events|
  {
    if events != [] {
      var out := Step(env, st, events[0]);
      var led' := NextLedger(led, events[0], out.reply);
      BookStep(env, st, led, events[0]);
      LaterStep(env, st, led, events[0]);
      if out.reply.Pulled? { LedgerGrows(led, out.reply.jobs, events[0].now); }
      if id !in out.state.jobs {
        GoneStaysGone(env, out.state, led', events[1..], id);
      } else {
        StatusOnlyForward(env, out.state, led', events[1..], id);
        LaterTransitive(st.jobs[id], out.state.jobs[id], Run(env, st, events).jobs[id]);
      }
    }
  }

  // ---------------------------------------------------------------- no job twice in one answer

  predicate Held(st: State, id: string, now: nat) {
    id in st.jobs && st.jobs[id].status.Running? && st.jobs[id].leaseUntil > now
  }

  predicate Self(jobs: map<string, Job>) {
    forall id :: id in jobs ==> jobs[id].jobId == id
  }

  /** A leased job is skipped by every round, and a delivered one is leased. */
  lemma RoundHolds(st: State, k: Slot, node: string, now: nat, id: string)
    requires Self(st.jobs)
    ensures var one := PullStep(st, k, node, now);
            && Self(one.state.jobs) && |one.jobs| <= 1
            && (Held(st, id, now) ==> Held(one.state, id, now) && forall e :: e in one.jobs ==> e.jobId != id)
            && (forall e :: e in one.jobs ==> Held(one.state, e.jobId, now))
  {
    var one := PullStep(st, k, node, now);
    if Decide(st, k, node, now) == Deliver {
      var job := st.jobs[st.index[k].value];
      assert one.jobs == [EnvelopeOf(Leased(job, now))];
    }
  }

  lemma {:induction false} LoopSkipsHeld(st: State, keys: seq<Slot>, node: string, now: nat, room: nat, id: string)
    requires Self(st.jobs) && Held(st, id, now)
    ensures forall e :: e in PullLoop(st, keys, node, now, room).jobs ==> e.jobId != id
    decreases |keys|
  {
    if keys != [] && room > 0 {
      var next, left, _ := LoopUnfold(st, keys, node, now, room);
      RoundHolds(st, keys[0], node, now, id);
      LoopSkipsHeld(next, keys[1..], node, now, left, id);
    }
  }

  /** One pull never lists a job twice, even over a listing and an index with repeated or stale entries. */
  lemma {:induction false} NoJobTwice(st: State, keys: seq<Slot>, node: string, now: nat, room: nat)
    requires Self(st.jobs)
    ensures var jobs := PullLoop(st, keys, node, now, room).jobs;
            forall i, j :: 0 <= i < j < |jobs| ==> jobs[i].jobId != jobs[j].jobId
    decreases |keys|
  {
    if keys != [] && room > 0 {
      var next, left, rest := LoopUnfold(st, keys, node, now, room);
      var one := PullStep(st, keys[0], node, now);
      RoundHolds(st, keys[0], node, now, "");
      NoJobTwice(next, keys[1..], node, now, left);
      if one.jobs != [] {
        LoopSkipsHeld(next, keys[1..], node, now, left, one.jobs[0].jobId);
        assert forall j :: 0 <= j < |rest.jobs| ==> rest.jobs[j] in rest.jobs;
      }
    }
  }
}
