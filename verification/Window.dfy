/** What one pull delivers, and how far down the queue running jobs can be. */
module Window {
  import opened Base
  import opened Keys
  import opened Store
  import opened Handlers
  import opened Shapes
  import opened Index
  import opened Ordering

  const WINDOW: nat := PULL_MAX * 4

  predicate Distinct(keys: seq<Slot>) {
    forall i, j :: 0 <= i < j < |keys| ==> keys[i] != keys[j]
  }

  /** The entries of a listing whose jobs are deliverable now, in listing order. */
  function Due(st: State, keys: seq<Slot>, node: string, now: nat): seq<Slot> {
    if keys == [] then []
    else (if Decide(st, keys[0], node, now) == Deliver then [keys[0]] else []) + Due(st, keys[1..], node, now)
  }

  function Envelopes(st: State, keys: seq<Slot>): seq<Envelope>
    requires forall i :: 0 <= i < |keys| ==> keys[i].job in st.jobs
  {
    seq(|keys|, i requires 0 <= i < |keys| => EnvelopeOf(st.jobs[keys[i].job]))
  }

  lemma {:induction false} DueAreEntries(st: State, keys: seq<Slot>, node: string, now: nat)
    requires Agree(st.jobs, st.index)
    ensures forall i :: 0 <= i < |Due(st, keys, node, now)| ==>
              var k := Due(st, keys, node, now)[i];
              k in keys && k in st.index && k.job in st.jobs && Decide(st, k, node, now) == Deliver
    decreases |keys|
  {
    if keys != [] { DueAreEntries(st, keys[1..], node, now); }
  }

  /** One round changes nothing another entry's decision depends on. */
  lemma OthersUnchanged(st: State, k: Slot, j: Slot, node: string, now: nat)
    requires Agree(st.jobs, st.index) && j != k
    ensures var out := PullStep(st, k, node, now).state;
            && Decide(out, j, node, now) == Decide(st, j, node, now)
            && (j in st.index ==> j in out.index && j.job in out.jobs && out.jobs[j.job] == st.jobs[j.job])
  {
    hide PullStep;
    StepShape(st, k, node, now);
    if j in st.index && k in st.index {
      assert SlotOf(st.jobs[j.job]) == j && SlotOf(st.jobs[k.job]) == k;
    }
  }

  lemma {:induction false} DueUnchanged(st: State, k: Slot, keys: seq<Slot>, node: string, now: nat)
    requires Agree(st.jobs, st.index) && k !in keys
    ensures Due(PullStep(st, k, node, now).state, keys, node, now) == Due(st, keys, node, now)
    decreases |keys|
  {
    if keys != [] {
      OthersUnchanged(st, k, keys[0], node, now);
      DueUnchanged(st, k, keys[1..], node, now);
    }
  }

  /** A pull round never changes what an envelope shows. */
  lemma EnvelopesUnchanged(st: State, k: Slot, keys: seq<Slot>, node: string, now: nat)
    requires Agree(st.jobs, st.index)
    requires forall i :: 0 <= i < |keys| ==> keys[i].job in st.jobs
    ensures PullStep(st, k, node, now).state.jobs.Keys == st.jobs.Keys
    ensures Envelopes(PullStep(st, k, node, now).state, keys) == Envelopes(st, keys)
  {
    hide PullStep, Agree;
    RoundJobs(st, k, node, now);
  }

  /** The loop returns exactly the first `room` deliverable entries of the listing, in its order. */
  lemma {:induction false} LoopDelivers(st: State, keys: seq<Slot>, node: string, now: nat, room: nat)
    requires Agree(st.jobs, st.index) && Distinct(keys)
    ensures forall i :: 0 <= i < |Due(st, keys, node, now)| ==> Due(st, keys, node, now)[i].job in st.jobs
    ensures PullLoop(st, keys, node, now, room).jobs == Envelopes(st, Take(Due(st, keys, node, now), room))
    decreases |keys|
  {
    if keys == [] || room == 0 {
      DueAreEntries(st, keys, node, now);
    } else {
      var next, left, rest := LoopUnfold(st, keys, node, now, room);
      StepAgrees(st, keys[0], node, now);
      LoopDelivers(next, keys[1..], node, now, left);
      RoundThenLoop(st, keys[0], keys[1..], node, now, room, rest.jobs);
      assert keys == [keys[0]] + keys[1..];
    }
  }

  lemma RoundThenLoop(st: State, k: Slot, keys: seq<Slot>, node: string, now: nat, room: nat, later: seq<Envelope>)
    requires Agree(st.jobs, st.index) && k !in keys && room > 0
    requires var one := PullStep(st, k, node, now);
             && |one.jobs| <= room
             && (forall i :: 0 <= i < |Due(one.state, keys, node, now)| ==> Due(one.state, keys, node, now)[i].job in one.state.jobs)
             && later == Envelopes(one.state, Take(Due(one.state, keys, node, now), room - |one.jobs|))
    ensures forall i :: 0 <= i < |Due(st, [k] + keys, node, now)| ==> Due(st, [k] + keys, node, now)[i].job in st.jobs
    ensures PullStep(st, k, node, now).jobs + later == Envelopes(st, Take(Due(st, [k] + keys, node, now), room))
  {
    DueUnchanged(st, k, keys, node, now);
    DueAreEntries(st, keys, node, now);
    RoundDelivers(st, k, Due(st, keys, node, now), node, now, room);
    assert ([k] + keys)[1..] == keys;
  }

  /** One round in front of a list of deliverable entries. */
  lemma RoundDelivers(st: State, k: Slot, tail: seq<Slot>, node: string, now: nat, room: nat)
    requires Agree(st.jobs, st.index) && room > 0
    requires forall i :: 0 <= i < |tail| ==> tail[i].job in st.jobs
    ensures var one := PullStep(st, k, node, now);
            var all := (if Decide(st, k, node, now) == Deliver then [k] else []) + tail;
            && |one.jobs| <= 1 && one.state.jobs.Keys == st.jobs.Keys
            && (forall i :: 0 <= i < |all| ==> all[i].job in st.jobs)
            && one.jobs + Envelopes(one.state, Take(tail, room - |one.jobs|)) == Envelopes(st, Take(all, room))
  {
    StepShape(st, k, node, now);
    EnvelopesUnchanged(st, k, Take(tail, room - |PullStep(st, k, node, now).jobs|), node, now);
    HeadEnvelope(st, k, tail, room, Decide(st, k, node, now) == Deliver);
  }

  lemma HeadEnvelope(st: State, k: Slot, tail: seq<Slot>, room: nat, due: bool)
    requires room > 0 && (due ==> k.job in st.jobs) && forall i :: 0 <= i < |tail| ==> tail[i].job in st.jobs
    ensures var all := (if due then [k] else []) + tail;
            (forall i :: 0 <= i < |all| ==> all[i].job in st.jobs)
            && Envelopes(st, Take(all, room))
            == (if due then [EnvelopeOf(st.jobs[k.job])] + Envelopes(st, Take(tail, room - 1)) else Envelopes(st, Take(tail, room)))
  {
    if due {
      assert Take([k] + tail, room) == [k] + Take(tail, room - 1);
      assert Envelopes(st, [k] + Take(tail, room - 1)) == [EnvelopeOf(st.jobs[k.job])] + Envelopes(st, Take(tail, room - 1));
    } else {
      assert [] + tail == tail;
    }
  }

  lemma ListingDistinct(st: State, node: string, limit: nat)
    ensures Distinct(ListQueue(st, node, limit))
  {
    var s := Queue(st, node);
    EarlierTotal(s, node);
    var q := SortedSeq(s, Earlier);
    forall i, j | 0 <= i < j < |q| ensures q[i] != q[j] { ListedOnce(q, s, Earlier, i, j); }
  }

  lemma ListingSorted(st: State, node: string, limit: nat)
    ensures Sorted(ListQueue(st, node, limit), Earlier)
  {
    EarlierTotal(Queue(st, node), node);
  }

  /** A pull answers with the first ten deliverable entries of its forty-entry window, oldest first. */
  lemma PullExact(env: Env, st: State, req: Request, node: string, now: nat)
    requires Inv(st) && Pull(env, st, req, node, now).reply.Pulled?
    ensures var w := ListQueue(st, node, 40);
            var due := Take(Due(st, w, node, now), 10);
            && Sorted(w, Earlier)
            && (forall i :: 0 <= i < |due| ==> due[i].job in st.jobs)
            && Pull(env, st, req, node, now).reply.jobs == Envelopes(st, due)
  {
    PullShape(env, st, req, node, now);
    var st1 := Noted(st, req, now);
    var w := ListQueue(st, node, WINDOW);
    assert Queue(st1, node) == Queue(st, node);
    ListingDistinct(st, node, WINDOW);
    ListingSorted(st, node, WINDOW);
    LoopDelivers(st1, w, node, now, PULL_MAX);
    SameDue(st1, st, w, node, now);
    DueAreEntries(st, w, node, now);
  }

  lemma {:induction false} SameDue(a: State, b: State, keys: seq<Slot>, node: string, now: nat)
    requires a.jobs == b.jobs && a.index == b.index
    ensures Due(a, keys, node, now) == Due(b, keys, node, now)
    decreases |keys|
  {
    if keys != [] { SameDue(a, b, keys[1..], node, now); }
  }

  // ---------------------------------------------------------------- the window invariant

  /** The entry is among the first forty of its node's queue. */
  ghost predicate InWindow(st: State, k: Slot) {
    k in ListQueue(st, k.node, WINDOW)
  }

  /** Every running job sits among the first forty entries of its node's queue. */
  ghost predicate RunningInWindow(st: State) {
    forall k :: k in st.index && k.job in st.jobs && st.jobs[k.job].status.Running? ==> InWindow(st, k)
  }

  lemma WindowAfterShrink(before: State, after: State, k: Slot)
    requires k in before.index && InWindow(before, k) && k in after.index
    requires after.index.Keys <= before.index.Keys
    ensures InWindow(after, k)
  {
    EarlierTotal(Queue(before, k.node), k.node);
    EarlierTotal(Queue(after, k.node), k.node);
    StaysInPrefix(Queue(before, k.node), Queue(after, k.node), Earlier, k, WINDOW);
  }

  lemma WindowAfterAppend(before: State, after: State, k: Slot, slot: Slot)
    requires k in before.index && InWindow(before, k)
    requires slot !in before.index && after.index.Keys == before.index.Keys + {slot}
    requires k.node == slot.node ==> Earlier(k, slot)
    ensures InWindow(after, k)
  {
    QueueGrows(before, after, slot, k.node);
    if k.node == slot.node {
      EarlierTotal(Queue(before, k.node) + {slot}, k.node);
      EarlierTotal(Queue(before, k.node), k.node);
      AppendKeepsPrefix(Queue(before, k.node), Earlier, slot, k, WINDOW);
    }
  }

  /** The slot sorts after every entry its node already has. */
  ghost predicate SortsLast(st: State, slot: Slot) {
    forall k :: k in st.index && k.node == slot.node ==> Earlier(k, slot)
  }

  /** A submit draws a creation time that lists after the target's queue. */
  ghost predicate ClockAdvances(st: State, ev: Event) {
    ev.Handle? && ev.call.DoSubmit? && ev.call.submit.Fields? ==>
      SortsLast(st, Slot(ev.call.submit.value.toNode, ev.now, ev.call.jobId))
  }

  lemma StepKeepsWindow(st: State, k: Slot, node: string, now: nat)
    requires Agree(st.jobs, st.index) && RunningInWindow(st)
    requires k in st.index ==> InWindow(st, k)
    ensures RunningInWindow(PullStep(st, k, node, now).state)
  {
    var out := PullStep(st, k, node, now).state;
    StepShape(st, k, node, now);
    StepFrame(st, k, node, now);
    forall j | j in out.index && j.job in out.jobs && out.jobs[j.job].status.Running? ensures InWindow(out, j) {
      if j != k { OthersUnchanged(st, k, j, node, now); }
      WindowAfterShrink(st, out, j);
    }
  }

  lemma KeysStayInWindow(before: State, after: State, keys: seq<Slot>)
    requires after.index.Keys <= before.index.Keys
    requires forall k :: k in keys && k in before.index ==> InWindow(before, k)
    ensures forall k :: k in keys && k in after.index ==> InWindow(after, k)
  {
    forall k | k in keys && k in after.index ensures InWindow(after, k) { WindowAfterShrink(before, after, k); }
  }

  lemma {:induction false} LoopKeepsWindow(st: State, keys: seq<Slot>, node: string, now: nat, room: nat)
    requires Agree(st.jobs, st.index) && RunningInWindow(st)
    requires forall k :: k in keys && k in st.index ==> InWindow(st, k)
    ensures RunningInWindow(PullLoop(st, keys, node, now, room).state)
    decreases |keys|
  {
    if keys != [] && room > 0 {
      var next, left, _ := LoopUnfold(st, keys, node, now, room);
      assert keys[0] in keys;
      StepAgrees(st, keys[0], node, now);
      StepFrame(st, keys[0], node, now);
      StepKeepsWindow(st, keys[0], node, now);
      KeysStayInWindow(st, next, keys[1..]);
      LoopKeepsWindow(next, keys[1..], node, now, left);
    }
  }

  lemma PullKeepsWindow(env: Env, st: State, req: Request, node: string, now: nat)
    requires Inv(st) && RunningInWindow(st)
    ensures RunningInWindow(Pull(env, st, req, node, now).state)
  {
    PullShape(env, st, req, node, now);
    if Pull(env, st, req, node, now).reply.Pulled? {
      var st1 := Noted(st, req, now);
      var keys := ListQueue(st1, node, WINDOW);
      forall k | k in st1.index && k.job in st1.jobs && st1.jobs[k.job].status.Running? ensures InWindow(st1, k) {
        WindowAfterShrink(st, st1, k);
      }
      forall k | k in keys ensures InWindow(st1, k) {
        assert k in Queue(st1, node);
      }
      LoopKeepsWindow(st1, keys, node, now, PULL_MAX);
    }
  }

  lemma SubmitKeepsWindow(st: State, gate: Gate, nonce: string, checked: Checked<SubmitBody>, jobId: string, now: nat)
    requires Inv(st) && RunningInWindow(st) && jobId !in st.jobs
    requires checked.Fields? ==> SortsLast(st, Slot(checked.value.toNode, now, jobId))
    ensures RunningInWindow(SubmitThrough(st, gate, nonce, checked, jobId, now).state)
  {
    var out := SubmitThrough(st, gate, nonce, checked, jobId, now);
    SubmitShape(st, gate, nonce, checked, jobId, now);
    if out.reply == Submitted(jobId, false) {
      CreatedKeepsWindow(st, out.state, NewJob(checked.value, jobId, now));
    } else {
      SameJobsKeepWindow(st, out.state);
    }
  }

  lemma CreatedKeepsWindow(st: State, out: State, job: Job)
    requires Agree(st.jobs, st.index) && RunningInWindow(st) && job.jobId !in st.jobs && SortsLast(st, SlotOf(job))
    requires out.jobs == st.jobs[job.jobId := job] && out.index == st.index[SlotOf(job) := Some(job.jobId)]
    requires job.status.Queued?
    ensures RunningInWindow(out)
  {
    var slot := SlotOf(job);
    AgreeAdd(st.jobs, st.index, job.jobId, job);
    forall k | k in out.index && k.job in out.jobs && out.jobs[k.job].status.Running? ensures InWindow(out, k) {
      assert k != slot && k in st.index;
      WindowAfterAppend(st, out, k, slot);
    }
  }

  lemma SameJobsKeepWindow(before: State, after: State)
    requires RunningInWindow(before) && after.jobs == before.jobs && after.index == before.index
    ensures RunningInWindow(after)
  {
    forall k | k in after.index && k.job in after.jobs && after.jobs[k.job].status.Running? ensures InWindow(after, k) {
      WindowAfterShrink(before, after, k);
    }
  }

  lemma ResultKeepsWindow(env: Env, st: State, req: Request, checked: Checked<ResultBody>, now: nat)
    requires Inv(st) && RunningInWindow(st)
    ensures RunningInWindow(Result(env, st, req, checked, now).state)
  {
    hide Result, CheckHeaders, InWindow;
    var out := Result(env, st, req, checked, now);
    ResultShape(env, st, req, checked, now);
    if out.reply == Accepted(false) {
      forall k | k in out.state.index && k.job in out.state.jobs && out.state.jobs[k.job].status.Running?
        ensures InWindow(out.state, k)
      {
        assert k.job != checked.value.jobId;
        WindowAfterShrink(st, out.state, k);
      }
    } else {
      SameJobsKeepWindow(st, out.state);
    }
  }

  lemma EventKeepsWindow(env: Env, st: State, ev: Event)
    requires Inv(st) && RunningInWindow(st) && Handled(st, ev) && ClockAdvances(st, ev)
    ensures RunningInWindow(Step(env, st, ev).state)
  {
    match ev.call {
      case DoSubmit(_, body, jobId) =>
        SubmitKeepsWindow(st, MemberGate(env, ev.req, ev.now), ev.req.memberSig.nonce, body, jobId, ev.now);
      case DoPull(nodeId) => PullKeepsWindow(env, st, ev.req, nodeId, ev.now);
      case DoResult(body) => ResultKeepsWindow(env, st, ev.req, body, ev.now);
      case _ =>
        NodeCallsSpareJobs(env, st, ev);
        SameJobsKeepWindow(st, Step(env, st, ev).state);
    }
  }

  /** A run of handled requests in which new jobs list after older ones. */
  ghost predicate OrderedRun(env: Env, st: State, events: seq<Event>)
    decreases |events|
  {
    events != [] ==>
      && Handled(st, events[0]) && ClockAdvances(st, events[0])
      && OrderedRun(env, Step(env, st, events[0]).state, events[1..])
  }

  lemma {:induction false} RunKeepsWindow(env: Env, st: State, events: seq<Event>)
    requires Inv(st) && RunningInWindow(st) && OrderedRun(env, st, events)
    ensures Inv(Run(env, st, events)) && RunningInWindow(Run(env, st, events))
    decreases |events|
  {
    if events != [] {
      StepKeepsInv(env, st, events[0]);
      EventKeepsWindow(env, st, events[0]);
      RunKeepsWindow(env, Step(env, st, events[0]).state, events[1..]);
    }
  }

  function RunningSlots(st: State, node: string): set<Slot> {
    set k | k in st.index && k.node == node && k.job in st.jobs && st.jobs[k.job].status.Running?
  }

  lemma ListedCount(keys: seq<Slot>, s: set<Slot>)
    requires forall k :: k in s ==> k in keys
    ensures |s| <= |keys|
    decreases |keys|
  {
    if keys != [] {
      var t := s - {keys[0]};
      forall k | k in t ensures k in keys[1..] {}
      ListedCount(keys[1..], t);
      assert s <= t + {keys[0]};
      SubsetSize(s, t + {keys[0]});
    }
  }

  /** However long the queue, at most forty of a node's jobs run at once. */
  lemma RunningBound(env: Env, events: seq<Event>, node: string)
    requires OrderedRun(env, EMPTY, events)
    ensures RunningInWindow(Run(env, EMPTY, events))
    ensures |RunningSlots(Run(env, EMPTY, events), node)| <= 40
  {
    assert forall n :: Queue(EMPTY, n) == {};
    RunKeepsWindow(env, EMPTY, events);
    var st := Run(env, EMPTY, events);
    var w := ListQueue(st, node, WINDOW);
    forall k | k in RunningSlots(st, node) ensures k in w { assert InWindow(st, k); }
    ListedCount(w, RunningSlots(st, node));
  }
}
