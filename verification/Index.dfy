/** The queue index always lists exactly the unfinished jobs. */
module Index {
  import opened Base
  import opened Keys
  import opened Store
  import opened Handlers
  import opened Shapes
  import Ordering

  /** The slots of a node's queued and running jobs. */
  function PendingSlots(st: State, node: string): set<Slot> {
    set id | id in st.jobs && Pending(st.jobs[id]) && st.jobs[id].toNode == node :: SlotOf(st.jobs[id])
  }

  ghost predicate WithinCap(st: State) {
    forall node :: |Queue(st, node)| <= MAX_QUEUED_PER_NODE
  }

  ghost predicate Inv(st: State) {
    Agree(st.jobs, st.index) && WithinCap(st)
  }

  /** A handled request whose fresh job id, if it draws one, names no stored job. */
  predicate Handled(st: State, ev: Event) {
    ev.Handle? && (ev.call.DoSubmit? ==> ev.call.jobId !in st.jobs)
  }

  lemma FewerEntries(before: State, after: State)
    requires WithinCap(before) && after.index.Keys <= before.index.Keys
    ensures WithinCap(after)
  {
    forall node ensures |Queue(after, node)| <= MAX_QUEUED_PER_NODE {
      Ordering.SubsetSize(Queue(after, node), Queue(before, node));
    }
  }

  lemma QueueGrows(before: State, after: State, slot: Slot, node: string)
    requires after.index.Keys == before.index.Keys + {slot}
    ensures Queue(after, node) == if node == slot.node then Queue(before, node) + {slot} else Queue(before, node)
  {
  }

  lemma OneMoreEntry(before: State, after: State, slot: Slot)
    requires WithinCap(before) && |Queue(before, slot.node)| < MAX_QUEUED_PER_NODE
    requires after.index.Keys == before.index.Keys + {slot}
    ensures WithinCap(after)
  {
    forall node ensures |Queue(after, node)| <= MAX_QUEUED_PER_NODE {
      QueueGrows(before, after, slot, node);
    }
  }

  lemma SubmitKeepsInv(st: State, gate: Gate, nonce: string, checked: Checked<SubmitBody>, jobId: string, now: nat)
    requires Inv(st) && jobId !in st.jobs
    ensures Inv(SubmitThrough(st, gate, nonce, checked, jobId, now).state)
  {
    var out := SubmitThrough(st, gate, nonce, checked, jobId, now);
    SubmitShape(st, gate, nonce, checked, jobId, now);
    if out.reply == Submitted(jobId, false) {
      CreatedKeepsInv(st, out.state, checked.value, jobId, now);
    } else {
      FewerEntries(st, out.state);
    }
  }

  lemma CreatedKeepsInv(st: State, out: State, body: SubmitBody, jobId: string, now: nat)
    requires Inv(st) && jobId !in st.jobs && |Queue(st, body.toNode)| < MAX_QUEUED_PER_NODE
    requires out.jobs == st.jobs[jobId := NewJob(body, jobId, now)]
    requires out.index == st.index[Slot(body.toNode, now, jobId) := Some(jobId)]
    ensures Inv(out)
  {
    AgreeAdd(st.jobs, st.index, jobId, NewJob(body, jobId, now));
    OneMoreEntry(st, out, Slot(body.toNode, now, jobId));
  }

  lemma PullKeepsInv(env: Env, st: State, req: Request, nodeId: string, now: nat)
    requires Inv(st)
    ensures Inv(Pull(env, st, req, nodeId, now).state)
  {
    var out := Pull(env, st, req, nodeId, now);
    PullShape(env, st, req, nodeId, now);
    if out.reply.Pulled? {
      var st1 := Noted(st, req, now);
      var keys := ListQueue(st1, nodeId, PULL_MAX * 4);
      LoopAgrees(st1, keys, nodeId, now, PULL_MAX);
      LoopFrame(st1, keys, nodeId, now, PULL_MAX);
      FewerEntries(st, out.state);
    }
  }

  lemma ResultKeepsInv(env: Env, st: State, req: Request, checked: Checked<ResultBody>, now: nat)
    requires Inv(st)
    ensures Inv(Result(env, st, req, checked, now).state)
  {
    var out := Result(env, st, req, checked, now);
    ResultShape(env, st, req, checked, now);
    FewerEntries(st, out.state);
    if out.reply == Accepted(false) {
      var id := checked.value.jobId;
      AgreeFinish(st.jobs, st.index, id, Finished(st.jobs[id], checked.value, now));
    }
  }

  /** Every handled request keeps the index and the jobs in agreement. */
  lemma StepKeepsInv(env: Env, st: State, ev: Event)
    requires Inv(st) && Handled(st, ev)
    ensures Inv(Step(env, st, ev).state)
  {
    hide Agree, WithinCap, Pull, Result, SubmitThrough, MemberGate, CheckHeaders;
    match ev.call {
      case DoRegister(body) =>
        RegisterShape(env, st, ev.req, body, ev.now);
        FewerEntries(st, Step(env, st, ev).state);
      case DoHeartbeat(body) =>
        HeartbeatShape(env, st, ev.req, body, ev.now);
        FewerEntries(st, Step(env, st, ev).state);
      case DoSubmit(_, body, jobId) =>
        SubmitKeepsInv(st, MemberGate(env, ev.req, ev.now), ev.req.memberSig.nonce, body, jobId, ev.now);
      case DoPull(nodeId) => PullKeepsInv(env, st, ev.req, nodeId, ev.now);
      case DoResult(body) => ResultKeepsInv(env, st, ev.req, body, ev.now);
    }
  }

  /** Every event of the run is a handled request in the state it meets. */
  ghost predicate HandledRun(env: Env, st: State, events: seq<Event>)
    decreases |events|
  {
    events != [] ==> Handled(st, events[0]) && HandledRun(env, Step(env, st, events[0]).state, events[1..])
  }

  lemma {:induction false} RunKeepsInv(env: Env, st: State, events: seq<Event>)
    requires Inv(st) && HandledRun(env, st, events)
    ensures Inv(Run(env, st, events))
    decreases |events|
  {
    if events != [] {
      StepKeepsInv(env, st, events[0]);
      RunKeepsInv(env, Step(env, st, events[0]).state, events[1..]);
    }
  }

  lemma QueueIsPending(st: State, node: string)
    requires Agree(st.jobs, st.index)
    ensures Queue(st, node) == PendingSlots(st, node)
  {
    forall k ensures k in Queue(st, node) <==> k in PendingSlots(st, node) {
      if k in Queue(st, node) { assert SlotOf(st.jobs[k.job]) == k; }
    }
  }

  /**
   * Index agreement: after any run of requests from an empty store, a node's index entries are
   * exactly the slots of its unfinished jobs, each naming its own job, and never more than the cap.
   */
  lemma IndexAgreement(env: Env, events: seq<Event>, node: string)
    requires HandledRun(env, EMPTY, events)
    ensures var st := Run(env, EMPTY, events);
            && Queue(st, node) == PendingSlots(st, node)
            && (forall k :: k in Queue(st, node) ==> st.index[k] == Some(k.job))
            && |Queue(st, node)| <= 100
  {
    assert forall n :: Queue(EMPTY, n) == {};
    RunKeepsInv(env, EMPTY, events);
    QueueIsPending(Run(env, EMPTY, events), node);
  }
}
