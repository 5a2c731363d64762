/** The records the coordinator keeps, one typed map per key family. */
module Store {
  import opened Base
  import opened Keys
  import opened JsonValue
  import Ordering

  datatype Status = Queued | Running | Done | Failed

  datatype Node = Node(
    nodeId: string,
    pubkey: string,
    verifyKey: string,
    wattage: real,
    measured: bool,
    neighborhood: string,
    lastSeen: nat,
    registeredMs: nat)

  datatype Job = Job(
    jobId: string,
    toNode: string,
    blob: string,
    replyKey: string,
    status: Status,
    attempts: nat,
    leaseUntil: nat,
    createdMs: nat,
    updatedMs: nat,
    result: Option<string>,
    receipt: Option<Json>,
    failedReason: Option<string>)

  const STALE_MS: nat := 90_000

  /** A node counts as alive while it has been heard of within three heartbeats. */
  predicate Alive(rec: Node, now: nat) {
    now - rec.lastSeen <= STALE_MS
  }

  const DEFAULT_NEIGHBORHOOD := "undisclosed"

  /** `readNeighborhood`. */
  function HoodName(rec: Node): string {
    if rec.neighborhood != "" then rec.neighborhood else DEFAULT_NEIGHBORHOOD
  }

  /** A nonce record: the second it was written and the millisecond its time to live ends. */
  datatype Nonce = Nonce(t: nat, expiresMs: nat)

  /** One value of the key/value store. An index entry may have lost its job id. */
  datatype Value =
    | NodeValue(node: Node)
    | JobValue(job: Job)
    | EntryValue(entry: Option<string>)
    | IdemValue(jobId: string)
    | NonceValue(seen: Nonce)
    | CountValue(count: int)

  datatype State = State(
    nodes: map<string, Node>,
    jobs: map<string, Job>,
    index: map<Slot, Option<string>>,
    idem: map<(string, string), string>,
    nonces: map<(string, string), Nonce>,
    memberNonces: map<(string, string), Nonce>,
    jobsDone: Option<int>)

  const EMPTY: State := State(map[], map[], map[], map[], map[], map[], None)

  /** `storage.get` by structured key. */
  function Lookup(st: State, k: Key): Option<Value> {
    match k
    case NodeKey(id) => if id in st.nodes then Some(NodeValue(st.nodes[id])) else None
    case JobKey(job) => if job in st.jobs then Some(JobValue(st.jobs[job])) else None
    case QueueKey(slot) => if slot in st.index then Some(EntryValue(st.index[slot])) else None
    case IdemKey(target, token) =>
      if (target, token) in st.idem then Some(IdemValue(st.idem[(target, token)])) else None
    case NonceKey(signer, nonce) =>
      if (signer, nonce) in st.nonces then Some(NonceValue(st.nonces[(signer, nonce)])) else None
    case MemberNonceKey(member, nonce) =>
      if (member, nonce) in st.memberNonces then Some(NonceValue(st.memberNonces[(member, nonce)])) else None
    case JobsDoneKey => if st.jobsDone.Some? then Some(CountValue(st.jobsDone.value)) else None
  }

  /** The value has the shape its key family stores. */
  predicate Fits(k: Key, v: Value) {
    match k
    case NodeKey(_) => v.NodeValue?
    case JobKey(_) => v.JobValue?
    case QueueKey(_) => v.EntryValue?
    case IdemKey(_, _) => v.IdemValue?
    case NonceKey(_, _) => v.NonceValue?
    case MemberNonceKey(_, _) => v.NonceValue?
    case JobsDoneKey => v.CountValue?
  }

  /** `storage.put`. */
  function Put(st: State, k: Key, v: Value): State
    requires Fits(k, v)
  {
    match k
    case NodeKey(id) => st.(nodes := st.nodes[id := v.node])
    case JobKey(job) => st.(jobs := st.jobs[job := v.job])
    case QueueKey(slot) => st.(index := st.index[slot := v.entry])
    case IdemKey(target, token) => st.(idem := st.idem[(target, token) := v.jobId])
    case NonceKey(signer, nonce) => st.(nonces := st.nonces[(signer, nonce) := v.seen])
    case MemberNonceKey(member, nonce) => st.(memberNonces := st.memberNonces[(member, nonce) := v.seen])
    case JobsDoneKey => st.(jobsDone := Some(v.count))
  }

  /** `storage.delete`, and what expiry does to a record. */
  function Delete(st: State, k: Key): State {
    match k
    case NodeKey(id) => st.(nodes := st.nodes - {id})
    case JobKey(job) => st.(jobs := st.jobs - {job})
    case QueueKey(slot) => st.(index := st.index - {slot})
    case IdemKey(target, token) => st.(idem := st.idem - {(target, token)})
    case NonceKey(signer, nonce) => st.(nonces := st.nonces - {(signer, nonce)})
    case MemberNonceKey(member, nonce) => st.(memberNonces := st.memberNonces - {(member, nonce)})
    case JobsDoneKey => st.(jobsDone := None)
  }

  lemma LookupPut(st: State, k: Key, v: Value, j: Key)
    requires Fits(k, v)
    ensures Lookup(Put(st, k, v), j) == if j == k then Some(v) else Lookup(st, j)
  {
  }

  lemma LookupDelete(st: State, k: Key, j: Key)
    ensures Lookup(Delete(st, k), j) == if j == k then None else Lookup(st, j)
  {
  }

  // ---------------------------------------------------------------- one node's queue

  /** The index entries of one node. */
  function Queue(st: State, node: string): set<Slot> {
    set k | k in st.index && k.node == node
  }

  /** A listing of one node's queue prefix: oldest first, at most `limit` entries. */
  function ListQueue(st: State, node: string, limit: nat): (w: seq<Slot>)
    ensures |w| == Min(limit, |Queue(st, node)|)
    ensures forall i :: 0 <= i < |w| ==> w[i] in Queue(st, node)
  {
    EarlierTotal(Queue(st, node), node);
    Take(Ordering.SortedSeq(Queue(st, node), Earlier), limit)
  }
}
