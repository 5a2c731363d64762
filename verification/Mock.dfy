/** The in-process coordinator of the Python test kit: the same API as a plain scan over a dict. */
module Mock {
  import opened Base
  import opened Store
  import opened Handlers
  import opened Ordering
  import opened PyDocument

  datatype MockJob = MockJob(
    jobId: string,
    toNode: string,
    blob: string,
    replyKey: string,
    status: Status,
    result: Option<string>,
    receipt: Option<PyDoc>,
    leaseUntil: nat,
    attempts: nat,
    createdMs: nat,
    seqNo: nat)

  type MockJobs = map<string, MockJob>

  datatype MockState = MockState(
    nodes: set<string>,
    jobs: MockJobs,
    idem: map<(string, string), string>,
    jobsDone: nat,
    lastSeq: nat)

  /** Sequence numbers never repeat and never run ahead of the counter. */
  ghost predicate Numbered(m: MockState) {
    && (forall a, b :: a in m.jobs && b in m.jobs && a != b ==> m.jobs[a].seqNo != m.jobs[b].seqNo)
    && (forall a :: a in m.jobs ==> m.jobs[a].seqNo <= m.lastSeq && m.jobs[a].jobId == a)
  }

  predicate Counted(job: MockJob, node: string) {
    job.toNode == node && (job.status.Queued? || job.status.Running?)
  }

  /** `queued_count`. */
  function QueuedCount(jobs: MockJobs, node: string): nat {
    |set id | id in jobs && Counted(jobs[id], node)|
  }

  // ---------------------------------------------------------------- submit

  /** `_create_job`, from the lookup of the target on. */
  function Create(m: MockState, body: SubmitBody, jobId: string, now: nat): (MockState, Reply) {
    if body.toNode !in m.nodes then (m, Refused(404))
    else if body.idempotencyKey.Some? && (body.toNode, body.idempotencyKey.value) in m.idem then
      (m, Submitted(m.idem[(body.toNode, body.idempotencyKey.value)], true))
    else if QueuedCount(m.jobs, body.toNode) >= MAX_QUEUED_PER_NODE then (m, Refused(429))
    else
      var job := MockJob(jobId, body.toNode, body.blob, body.replyKey, Queued, None, None, 0, 0, now, m.lastSeq + 1);
      var idem := if body.idempotencyKey.None? then m.idem else m.idem[(body.toNode, body.idempotencyKey.value) := jobId];
      (m.(jobs := m.jobs[jobId := job], idem := idem, lastSeq := m.lastSeq + 1), Submitted(jobId, false))
  }

  // ---------------------------------------------------------------- pull

  predicate BySeq(jobs: MockJobs, a: string, b: string) {
    a in jobs && b in jobs && jobs[a].seqNo < jobs[b].seqNo
  }

  lemma SeqTotal(m: MockState)
    requires Numbered(m)
    ensures TotalOn(m.jobs.Keys, (a, b) => BySeq(m.jobs, a, b))
  {
  }

  /** `sorted(jobs.values(), key=seq)`. */
  function ScanOrder(m: MockState): (ids: seq<string>)
    requires Numbered(m)
    ensures forall i :: 0 <= i < |ids| ==> ids[i] in m.jobs
  {
    SeqTotal(m);
    SortedSeq(m.jobs.Keys, (a, b) => BySeq(m.jobs, a, b))
  }

  function MockEnvelope(job: MockJob): Envelope {
    Envelope(job.jobId, job.toNode, job.blob, job.replyKey)
  }

  datatype ScanOut = ScanOut(jobs: MockJobs, out: seq<Envelope>)

  /** One job of the scan. */
  function ScanJob(jobs: MockJobs, id: string, node: string, now: nat): ScanOut
    requires id in jobs
  {
    var job := jobs[id];
    if job.toNode != node then ScanOut(jobs, [])
    else if job.status.Running? && job.leaseUntil <= now && job.attempts >= MAX_ATTEMPTS then
      ScanOut(jobs[id := job.(status := Failed)], [])
    else if job.status.Queued? || (job.status.Running? && job.leaseUntil <= now) then
      ScanOut(jobs[id := job.(status := Running, leaseUntil := now + LEASE_MS, attempts := job.attempts + 1)],
              [MockEnvelope(job)])
    else ScanOut(jobs, [])
  }

  function Scan(jobs: MockJobs, ids: seq<string>, node: string, now: nat, room: nat): (r: ScanOut)
    requires forall i :: 0 <= i < |ids| ==> ids[i] in jobs
    ensures r.jobs.Keys == jobs.Keys
    decreases |ids|
  {
    if ids == [] || room == 0 then ScanOut(jobs, [])
    else
      var one := ScanJob(jobs, ids[0], node, now);
      assert one.jobs.Keys == jobs.Keys;
      var rest := Scan(one.jobs, ids[1..], node, now, room - |one.out|);
      ScanOut(rest.jobs, one.out + rest.out)
  }

  lemma ScanUnfold(jobs: MockJobs, ids: seq<string>, i: nat, node: string, now: nat, out: seq<Envelope>, one: ScanOut)
    requires i < |ids| && |out| < PULL_MAX && forall j :: 0 <= j < |ids| ==> ids[j] in jobs
    requires one == ScanJob(jobs, ids[i], node, now)
    ensures one.jobs.Keys == jobs.Keys && |out + one.out| <= PULL_MAX
    ensures var here := Scan(jobs, ids[i..], node, now, PULL_MAX - |out|);
            var rest := Scan(one.jobs, ids[i + 1..], node, now, PULL_MAX - |out + one.out|);
            ScanOut(here.jobs, out + here.out) == ScanOut(rest.jobs, (out + one.out) + rest.out)
  {
    hide ScanJob;
    ScanOneKeepsNumbers(jobs, ids[i], node, now);
    assert ids[i..][1..] == ids[i + 1..];
    var rest := Scan(one.jobs, ids[i + 1..], node, now, PULL_MAX - |out + one.out|);
    assert out + (one.out + rest.out) == (out + one.out) + rest.out;
  }

  lemma {:induction false} ScanKeepsNumbers(jobs: MockJobs, ids: seq<string>, node: string, now: nat, room: nat)
    requires forall i :: 0 <= i < |ids| ==> ids[i] in jobs
    ensures var after := Scan(jobs, ids, node, now, room).jobs;
            forall id :: id in jobs ==> after[id].seqNo == jobs[id].seqNo && after[id].jobId == jobs[id].jobId
    decreases |ids|
  {
    hide ScanJob;
    if ids != [] && room > 0 {
      var one := ScanJob(jobs, ids[0], node, now);
      ScanOneKeepsNumbers(jobs, ids[0], node, now);
      ScanKeepsNumbers(one.jobs, ids[1..], node, now, room - |one.out|);
    }
  }

  lemma ScanOneKeepsNumbers(jobs: MockJobs, id: string, node: string, now: nat)
    requires id in jobs
    ensures var after := ScanJob(jobs, id, node, now).jobs;
            after.Keys == jobs.Keys && |ScanJob(jobs, id, node, now).out| <= 1
            && forall j :: j in jobs ==> after[j].seqNo == jobs[j].seqNo && after[j].jobId == jobs[j].jobId
  {
  }

  /** `_pull` with a matching identity header. */
  function MockPull(m: MockState, node: string, now: nat): (MockState, Reply)
    requires Numbered(m)
  {
    if node !in m.nodes then (m, Refused(404))
    else
      var scan := Scan(m.jobs, ScanOrder(m), node, now, PULL_MAX);
      (m.(jobs := scan.jobs), Pulled(scan.out))
  }

  // ---------------------------------------------------------------- result and status

  /** A result as the Python server reads it: the receipt stays the document `json.loads` made. */
  datatype MockResultBody = MockResultBody(jobId: string, blob: string, receipt: Option<PyDoc>)

  /** `_result`, from the lookup of the job on. */
  function MockResult(m: MockState, node: string, body: MockResultBody): (MockState, Reply) {
    if body.jobId !in m.jobs then (m, Refused(404))
    else
      var job := m.jobs[body.jobId];
      if job.toNode != node then (m, Refused(403))
      else if job.status.Done? then (m, Accepted(true))
      else if !job.status.Running? then (m, Refused(409))
      else
        var done := job.(status := Done, result := Some(body.blob), receipt := body.receipt, leaseUntil := 0);
        (m.(jobs := m.jobs[body.jobId := done], jobsDone := m.jobsDone + 1), Accepted(false))
  }

  datatype MockView = MockNotDone(status: Status) | MockDone(blob: Option<string>, receipt: Option<PyDoc>)

  /** `_job_status`. */
  function MockStatus(m: MockState, jobId: string): Option<MockView> {
    if jobId !in m.jobs then None
    else
      var job := m.jobs[jobId];
      Some(if job.status.Done? then MockDone(job.result, job.receipt) else MockNotDone(job.status))
  }

  // ---------------------------------------------------------------- nodes

  /** `_register`: no verifier, so every well-formed registration is recorded. */
  function MockRegister(m: MockState, node: string): (MockState, Reply) {
    (m.(nodes := m.nodes + {node}), Registered(node in m.nodes))
  }

  /** `_heartbeat` with a matching identity header. */
  function MockHeartbeat(m: MockState, node: string): (MockState, Reply) {
    if node !in m.nodes then (m, Refused(404)) else (m, Beaten)
  }

  // ---------------------------------------------------------------- the coordinator object

  class MockCoordinator {
    var nodes: set<string>
    var jobs: MockJobs
    var idempotency: map<(string, string), string>
    var jobsDone: nat
    var lastSeq: nat

    function State(): MockState
      reads this
    {
      MockState(nodes, jobs, idempotency, jobsDone, lastSeq)
    }

    ghost predicate Valid()
      reads this
    {
      Numbered(State())
    }

    constructor ()
      ensures Valid() && State() == MockState({}, map[], map[], 0, 0)
    {
      nodes, jobs, idempotency, jobsDone, lastSeq := {}, map[], map[], 0, 0;
    }

    method Register(node: string) returns (reply: Reply)
      requires Valid()
      modifies this`nodes
      ensures Valid()
      ensures (State(), reply) == MockRegister(old(State()), node)
    {
      var existed := node in nodes;
      nodes := nodes + {node};
      return Registered(existed);
    }

    method Heartbeat(node: string) returns (reply: Reply)
      requires Valid()
      ensures (State(), reply) == MockHeartbeat(State(), node)
    {
      return if node in nodes then Beaten else Refused(404);
    }

    method JobStatus(jobId: string) returns (view: Option<MockView>)
      requires Valid()
      ensures view == MockStatus(State(), jobId)
    {
      if jobId !in jobs { return None; }
      var job := jobs[jobId];
      return Some(if job.status.Done? then MockDone(job.result, job.receipt) else MockNotDone(job.status));
    }

    method NextSeq() returns (n: nat)
      modifies this`lastSeq
      ensures n == lastSeq == old(lastSeq) + 1
    {
      lastSeq := lastSeq + 1;
      n := lastSeq;
    }

    method CreateJob(body: SubmitBody, jobId: string, now: nat) returns (reply: Reply)
      requires Valid() && jobId !in jobs
      modifies this
      ensures Valid()
      ensures (State(), reply) == Create(old(State()), body, jobId, now)
    {
      if body.toNode !in nodes { return Refused(404); }
      if body.idempotencyKey.Some? && (body.toNode, body.idempotencyKey.value) in idempotency {
        return Submitted(idempotency[(body.toNode, body.idempotencyKey.value)], true);
      }
      if QueuedCount(jobs, body.toNode) >= MAX_QUEUED_PER_NODE { return Refused(429); }
      var n := NextSeq();
      jobs := jobs[jobId := MockJob(jobId, body.toNode, body.blob, body.replyKey, Queued, None, None, 0, 0, now, n)];
      if body.idempotencyKey.Some? {
        idempotency := idempotency[(body.toNode, body.idempotencyKey.value) := jobId];
      }
      return Submitted(jobId, false);
    }

    /** The loop body of the scan. */
    method ScanOne(id: string, node: string, now: nat) returns (found: seq<Envelope>)
      requires id in jobs
      modifies this`jobs
      ensures ScanOut(jobs, found) == ScanJob(old(jobs), id, node, now)
    {
      var job := jobs[id];
      if job.toNode != node { return []; }
      if job.status.Queued? {
      } else if job.status.Running? && job.leaseUntil <= now {
        if job.attempts >= MAX_ATTEMPTS {
          jobs := jobs[id := job.(status := Failed)];
          return [];
        }
      } else {
        return [];
      }
      jobs := jobs[id := job.(status := Running, leaseUntil := now + LEASE_MS, attempts := job.attempts + 1)];
      return [MockEnvelope(job)];
    }

    /** The scan, job by job, stopping when ten have been found. */
    method ScanJobs(order: seq<string>, node: string, now: nat) returns (out: seq<Envelope>)
      requires forall i :: 0 <= i < |order| ==> order[i] in jobs
      modifies this`jobs
      ensures ScanOut(jobs, out) == Scan(old(jobs), order, node, now, PULL_MAX)
    {
      out := [];
      var i := 0;
      assert order[0..] == order;
      while i < |order| && |out| < PULL_MAX
        invariant 0 <= i <= |order| && |out| <= PULL_MAX
        invariant jobs.Keys == old(jobs).Keys
        invariant var rest := Scan(jobs, order[i..], node, now, PULL_MAX - |out|);
                  Scan(old(jobs), order, node, now, PULL_MAX) == ScanOut(rest.jobs, out + rest.out)
      {
        ghost var here := jobs;
        var found := ScanOne(order[i], node, now);
        ScanUnfold(here, order, i, node, now, out, ScanOut(jobs, found));
        out := out + found;
        i := i + 1;
      }
      assert out + [] == out;
    }

    method Pull(node: string, now: nat) returns (reply: Reply)
      requires Valid()
      modifies this`jobs
      ensures Valid()
      ensures (State(), reply) == MockPull(old(State()), node, now)
    {
      if node !in nodes { return Refused(404); }
      var order := ScanOrder(State());
      ScanKeepsNumbers(jobs, order, node, now, PULL_MAX);
      var out := ScanJobs(order, node, now);
      return Pulled(out);
    }

    method PostResult(node: string, body: MockResultBody) returns (reply: Reply)
      requires Valid()
      modifies this
      ensures Valid()
      ensures (State(), reply) == MockResult(old(State()), node, body)
    {
      if body.jobId !in jobs { return Refused(404); }
      var job := jobs[body.jobId];
      if job.toNode != node { return Refused(403); }
      if job.status.Done? { return Accepted(true); }
      if !job.status.Running? { return Refused(409); }
      jobs := jobs[body.jobId := job.(status := Done, result := Some(body.blob), receipt := body.receipt, leaseUntil := 0)];
      jobsDone := jobsDone + 1;
      return Accepted(false);
    }
  }
}
