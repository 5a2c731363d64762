/** What each handler changes, read off once and used by every invariant proof. */
module Shapes {
  import opened Base
  import opened Keys
  import opened Store
  import opened Handlers

  predicate Pending(job: Job) {
    job.status.Queued? || job.status.Running?
  }

  function SlotOf(job: Job): Slot {
    Slot(job.toNode, job.createdMs, job.jobId)
  }

  /** Index and jobs agree: entries are exactly the slots of unfinished jobs, naming their own job. */
  ghost predicate Agree(jobs: map<string, Job>, index: map<Slot, Option<string>>) {
    && (forall k :: k in index ==>
          index[k] == Some(k.job) && k.job in jobs && SlotOf(jobs[k.job]) == k && Pending(jobs[k.job]))
    && (forall id :: id in jobs ==> jobs[id].jobId == id)
    && (forall id :: id in jobs && Pending(jobs[id]) ==> SlotOf(jobs[id]) in index)
  }

  lemma AgreeUpdate(jobs: map<string, Job>, index: map<Slot, Option<string>>, id: string, job: Job)
    requires Agree(jobs, index) && id in jobs && Pending(jobs[id])
    requires Pending(job) && SlotOf(job) == SlotOf(jobs[id])
    ensures Agree(jobs[id := job], index)
  {
  }

  lemma AgreeFinish(jobs: map<string, Job>, index: map<Slot, Option<string>>, id: string, job: Job)
    requires Agree(jobs, index) && id in jobs && Pending(jobs[id])
    requires !Pending(job) && SlotOf(job) == SlotOf(jobs[id])
    ensures Agree(jobs[id := job], index - {SlotOf(job)})
  {
  }

  lemma AgreeAdd(jobs: map<string, Job>, index: map<Slot, Option<string>>, id: string, job: Job)
    requires Agree(jobs, index) && id !in jobs && job.jobId == id && Pending(job)
    ensures SlotOf(job) !in index
    ensures Agree(jobs[id := job], index[SlotOf(job) := Some(id)])
  {
  }

  // ---------------------------------------------------------------- the pull loop

  /** With the index in agreement, one round of the loop does one of three things to one job. */
  lemma StepShape(st: State, k: Slot, node: string, now: nat)
    requires Agree(st.jobs, st.index)
    ensures var out := PullStep(st, k, node, now);
            match Decide(st, k, node, now)
            case Drop => k !in st.index && out == PullOut(st, [])
            case Skip => k in st.index && out == PullOut(st, [])
            case GiveUp =>
              k in st.index && st.jobs[k.job].status.Running?
              && out == PullOut(st.(jobs := st.jobs[k.job := GivenUp(st.jobs[k.job], now)], index := st.index - {k}), [])
            case Deliver =>
              k in st.index
              && out == PullOut(st.(jobs := st.jobs[k.job := Leased(st.jobs[k.job], now)]), [EnvelopeOf(st.jobs[k.job])])
  {
    if k !in st.index { assert st.index - {k} == st.index; }
  }

  /** Whatever the index holds, one round replaces at most one job record and hands out at most that job. */
  lemma RoundJobs(st: State, k: Slot, node: string, now: nat)
    ensures var (out, id) := (PullStep(st, k, node, now), if k in st.index && st.index[k].Some? then st.index[k].value else "");
            match Decide(st, k, node, now)
            case GiveUp => id in st.jobs && out.jobs == [] && out.state.jobs == st.jobs[id := GivenUp(st.jobs[id], now)]
            case Deliver =>
              id in st.jobs && out.jobs == [EnvelopeOf(st.jobs[id])] && out.state.jobs == st.jobs[id := Leased(st.jobs[id], now)]
            case _ => out.jobs == [] && out.state.jobs == st.jobs
  {
  }

  /** The loop is one round and then the loop over the rest. */
  lemma LoopUnfold(st: State, keys: seq<Slot>, node: string, now: nat, room: nat)
      returns (next: State, left: nat, rest: PullOut)
    requires keys != [] && room > 0
    ensures var one := PullStep(st, keys[0], node, now);
            && next == one.state && left == room - |one.jobs|
            && rest == PullLoop(next, keys[1..], node, now, left)
            && PullLoop(st, keys, node, now, room) == PullOut(rest.state, one.jobs + rest.jobs)
  {
    var one := PullStep(st, keys[0], node, now);
    next, left := one.state, room - |one.jobs|;
    rest := PullLoop(next, keys[1..], node, now, left);
  }

  /** A pull touches jobs and index only; it never adds an entry or a job. */
  predicate PullFrame(before: State, after: State) {
    && after == before.(jobs := after.jobs, index := after.index)
    && after.index.Keys <= before.index.Keys
    && after.jobs.Keys == before.jobs.Keys
  }

  lemma StepFrame(st: State, k: Slot, node: string, now: nat)
    ensures PullFrame(st, PullStep(st, k, node, now).state)
  {
  }

  lemma {:induction false} LoopFrame(st: State, keys: seq<Slot>, node: string, now: nat, room: nat)
    ensures PullFrame(st, PullLoop(st, keys, node, now, room).state)
    decreases |keys|
  {
    if keys != [] && room > 0 {
      var next, left, _ := LoopUnfold(st, keys, node, now, room);
      StepFrame(st, keys[0], node, now);
      LoopFrame(next, keys[1..], node, now, left);
    }
  }

  lemma StepAgrees(st: State, k: Slot, node: string, now: nat)
    requires Agree(st.jobs, st.index)
    ensures var out := PullStep(st, k, node, now).state; Agree(out.jobs, out.index)
  {
    StepShape(st, k, node, now);
    match Decide(st, k, node, now) {
      case GiveUp => AgreeFinish(st.jobs, st.index, k.job, GivenUp(st.jobs[k.job], now));
      case Deliver => AgreeUpdate(st.jobs, st.index, k.job, Leased(st.jobs[k.job], now));
      case _ =>
    }
  }

  lemma {:induction false} LoopAgrees(st: State, keys: seq<Slot>, node: string, now: nat, room: nat)
    requires Agree(st.jobs, st.index)
    ensures var out := PullLoop(st, keys, node, now, room).state; Agree(out.jobs, out.index)
    decreases |keys|
  {
    if keys != [] && room > 0 {
      var next, left, _ := LoopUnfold(st, keys, node, now, room);
      StepAgrees(st, keys[0], node, now);
      LoopAgrees(next, keys[1..], node, now, left);
    }
  }

  // ---------------------------------------------------------------- handlers

  predicate SameButNonces(a: State, b: State) {
    a == b.(nonces := a.nonces, memberNonces := a.memberNonces)
  }

  lemma SignatureShape(env: Env, st: State, req: Request, key: string, now: nat)
    ensures var (out, refusal) := CheckSignature(env, st, req, key, now);
            if refusal.Some? then out == st
            else CheckHeaders(env, req, req.sig, key, now) == Genuine && IsNodeId(req.nodeId)
                 && (req.nodeId, req.sig.nonce) !in st.nonces
                 && out == st.(nonces := st.nonces[(req.nodeId, req.sig.nonce) := NonceRecord(now)])
  {
  }

  /** The store right after an accepted signature. */
  function Noted(st: State, req: Request, now: nat): State {
    st.(nonces := st.nonces[(req.nodeId, req.sig.nonce) := NonceRecord(now)])
  }

  /** The request passes the node signature check under a key. */
  predicate Authentic(env: Env, st: State, req: Request, key: string, now: nat) {
    CheckHeaders(env, req, req.sig, key, now) == Genuine && IsNodeId(req.nodeId) && (req.nodeId, req.sig.nonce) !in st.nonces
  }

  lemma PullShape(env: Env, st: State, req: Request, nodeId: string, now: nat)
    ensures var out := Pull(env, st, req, nodeId, now);
            if out.reply.Pulled? then
              && nodeId in st.nodes && req.nodeId == nodeId
              && Authentic(env, st, req, st.nodes[nodeId].verifyKey, now)
              && var st1 := Noted(st, req, now);
                 var loop := PullLoop(st1, ListQueue(st1, nodeId, PULL_MAX * 4), nodeId, now, PULL_MAX);
                 out == Outcome(loop.state, Pulled(loop.jobs))
            else out.reply.Refused? && out.state == st
  {
    if nodeId in st.nodes { SignatureShape(env, st, req, st.nodes[nodeId].verifyKey, now); }
  }

  lemma ResultShape(env: Env, st: State, req: Request, checked: Checked<ResultBody>, now: nat)
    requires forall id :: id in st.jobs ==> st.jobs[id].jobId == id
    ensures var out := Result(env, st, req, checked, now);
            if out.reply == Accepted(false) then
              && checked.Fields? && req.nodeId in st.nodes
              && Authentic(env, st, req, st.nodes[req.nodeId].verifyKey, now)
              && var id := checked.value.jobId;
                 && id in st.jobs && st.jobs[id].toNode == req.nodeId && st.jobs[id].status.Running?
                 && out.state == Noted(st, req, now).(
                      jobs := st.jobs[id := Finished(st.jobs[id], checked.value, now)],
                      index := st.index - {SlotOf(st.jobs[id])},
                      jobsDone := Some(ReadCounter(st.jobsDone) + 1))
            else (out.reply.Refused? || out.reply == Accepted(true))
                 && SameButNonces(out.state, st) && out.state.memberNonces == st.memberNonces
  {
    if req.nodeId in st.nodes { SignatureShape(env, st, req, st.nodes[req.nodeId].verifyKey, now); }
  }

  /** The store as the queueing step of a submit sees it. */
  function Gated(st: State, gate: Gate, nonce: string, now: nat): State {
    if gate.ByMember? then st.(memberNonces := st.memberNonces[(gate.key, nonce) := NonceRecord(now)]) else st
  }

  lemma EnqueueShape(st: State, body: SubmitBody, jobId: string, now: nat)
    ensures var out := Enqueue(st, body, jobId, now);
            if out.reply == Submitted(jobId, false) then
              && IsNodeId(body.toNode) && body.toNode in st.nodes
              && (body.idempotencyKey.Some? ==> IsIdempotencyKey(body.idempotencyKey.value))
              && |Queue(st, body.toNode)| < MAX_QUEUED_PER_NODE
              && (body.idempotencyKey.Some? ==> (body.toNode, body.idempotencyKey.value) !in st.idem)
              && out.state == st.(
                   jobs := st.jobs[jobId := NewJob(body, jobId, now)],
                   index := st.index[Slot(body.toNode, now, jobId) := Some(jobId)],
                   idem := if body.idempotencyKey.None? then st.idem
                           else st.idem[(body.toNode, body.idempotencyKey.value) := jobId])
            else out.state == st && (out.reply.Refused? || (out.reply.Submitted? && out.reply.duplicate))
  {
  }

  lemma AdmitShape(st: State, checked: Checked<SubmitBody>, jobId: string, now: nat)
    ensures var out := Admit(st, checked, jobId, now);
            if out.reply == Submitted(jobId, false) then
              checked.Fields? && out == Enqueue(st, checked.value, jobId, now)
            else out.state == st && (out.reply.Refused? || (out.reply.Submitted? && out.reply.duplicate))
  {
    if checked.Fields? { EnqueueShape(st, checked.value, jobId, now); }
  }

  /** The store after a job has been created: the record, its index entry, the idempotency record. */
  function Created(st: State, body: SubmitBody, jobId: string, now: nat): State {
    st.(jobs := st.jobs[jobId := NewJob(body, jobId, now)],
        index := st.index[Slot(body.toNode, now, jobId) := Some(jobId)],
        idem := if body.idempotencyKey.None? then st.idem
                else st.idem[(body.toNode, body.idempotencyKey.value) := jobId])
  }

  /** A submit that creates a job does so behind the gate; any other changes member nonces at most. */
  lemma SubmitShape(st: State, gate: Gate, nonce: string, checked: Checked<SubmitBody>, jobId: string, now: nat)
    ensures var out := SubmitThrough(st, gate, nonce, checked, jobId, now);
            if out.reply == Submitted(jobId, false) then
              && checked.Fields? && gate != Denied
              && (gate.ByMember? ==> (gate.key, nonce) !in st.memberNonces)
              && var body := checked.value;
                 && IsNodeId(body.toNode) && body.toNode in st.nodes
                 && (body.idempotencyKey.Some? ==>
                       IsIdempotencyKey(body.idempotencyKey.value) && (body.toNode, body.idempotencyKey.value) !in st.idem)
                 && |Queue(st, body.toNode)| < MAX_QUEUED_PER_NODE
                 && out.state == Created(Gated(st, gate, nonce, now), body, jobId, now)
            else SameButNonces(out.state, st) && out.state.nonces == st.nonces
                 && (out.reply.Refused? || (out.reply.Submitted? && out.reply.duplicate))
  {
    match gate {
      case Denied =>
      case _ =>
        var st1 := Gated(st, gate, nonce, now);
        AdmitShape(st1, checked, jobId, now);
        if checked.Fields? {
          EnqueueShape(st1, checked.value, jobId, now);
          assert Queue(st1, checked.value.toNode) == Queue(st, checked.value.toNode);
        }
    }
  }

  lemma RegisterShape(env: Env, st: State, req: Request, checked: Checked<RegisterBody>, now: nat)
    ensures var out := Register(env, st, req, checked, now);
            if out.reply.Registered? then
              && checked.Fields?
              && var body := checked.value;
                 && req.nodeId == body.nodeId && IsKey32(env, body.verifyKey) && IsNodeId(body.nodeId)
                 && Authentic(env, st, req,
                      if body.nodeId in st.nodes then st.nodes[body.nodeId].verifyKey else body.verifyKey, now)
                 && body.nodeId in out.state.nodes
                 && out.state.nodes[body.nodeId].verifyKey == body.verifyKey
                 && out.state.nodes[body.nodeId].pubkey == body.pubkey
                 && out.state == Noted(st, req, now).(nodes := st.nodes[body.nodeId := out.state.nodes[body.nodeId]])
            else out.reply.Refused? && out.state == st
  {
    if checked.Fields? {
      var body := checked.value;
      SignatureShape(env, st, req,
        if body.nodeId in st.nodes then st.nodes[body.nodeId].verifyKey else body.verifyKey, now);
    }
  }

  lemma HeartbeatShape(env: Env, st: State, req: Request, checked: Checked<Beat>, now: nat)
    ensures var out := Heartbeat(env, st, req, checked, now);
            if out.reply.Beaten? then
              && checked.Fields?
              && var id := checked.value.nodeId;
                 && id in st.nodes && req.nodeId == id && Authentic(env, st, req, st.nodes[id].verifyKey, now)
                 && id in out.state.nodes
                 && out.state.nodes[id].verifyKey == st.nodes[id].verifyKey
                 && out.state.nodes[id].pubkey == st.nodes[id].pubkey
                 && out.state == Noted(st, req, now).(nodes := st.nodes[id := out.state.nodes[id]])
            else out.reply.Refused? && SameButNonces(out.state, st) && out.state.memberNonces == st.memberNonces
  {
    if checked.Fields? && checked.value.nodeId in st.nodes {
      SignatureShape(env, st, req, st.nodes[checked.value.nodeId].verifyKey, now);
    }
  }

  /** Register and heartbeat leave jobs, index, idempotency records and the counter alone. */
  lemma NodeCallsSpareJobs(env: Env, st: State, ev: Event)
    requires ev.Handle? && (ev.call.DoRegister? || ev.call.DoHeartbeat?)
    ensures var out := Step(env, st, ev).state;
            out.jobs == st.jobs && out.index == st.index && out.idem == st.idem && out.jobsDone == st.jobsDone
            && out.memberNonces == st.memberNonces
  {
    match ev.call {
      case DoRegister(body) => RegisterShape(env, st, ev.req, body, ev.now);
      case DoHeartbeat(body) => HeartbeatShape(env, st, ev.req, body, ev.now);
    }
  }

  /** Expiry only removes job records; a resurfacing entry leaves them alone. */
  lemma StoreEventsShape(env: Env, st: State, ev: Event)
    requires !ev.Handle?
    ensures var out := Step(env, st, ev).state;
            && out.jobs.Keys <= st.jobs.Keys && (forall id :: id in out.jobs ==> out.jobs[id] == st.jobs[id])
            && (ev.Resurface? ==> out == st.(index := st.index[ev.slot := ev.entry]))
  {
    match ev {
      case Resurface(_, slot, entry) =>
      case Expire(_, key) => ExpiryRemoves(st, key);
    }
  }

  lemma ExpiryRemoves(st: State, key: Key)
    ensures var out := Delete(st, key);
            out.jobs.Keys <= st.jobs.Keys && forall id :: id in out.jobs ==> out.jobs[id] == st.jobs[id]
  {
  }
}
