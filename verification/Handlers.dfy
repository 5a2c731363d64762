/** What each coordinator request does to the store, as a function of store, request and clock. */
module Handlers {
  import opened Base
  import opened Keys
  import opened JsonText
  import opened JsonValue
  import opened Signing
  import opened Store
  import Decimal

  const MAX_SKEW_S: nat := 300
  const NONCE_TTL_S: nat := 600
  const PULL_MAX: nat := 10
  const LEASE_MS: nat := 600_000
  const MAX_ATTEMPTS: nat := 5
  const MAX_QUEUED_PER_NODE: nat := 100
  const MAX_CARD_HEADER: nat := 8192
  const CARD_MEMBER_MAX: nat := 64
  const KEY_BYTES: nat := 32

  /** What the coordinator is given: a verifier, a base64 decoder, a card decoder and the club key. */
  datatype Env = Env(
    verify: (string, Bytes, Bytes) -> bool,
    atob: string -> Option<Bytes>,
    parseCard: Bytes -> Option<Json>,
    clubKey: string)

  /** The three headers of one signature; an absent header is the empty string. */
  datatype SigHeaders = SigHeaders(timestamp: string, nonce: string, signature: string)

  datatype Request = Request(
    host: string,
    verb: string,
    path: string,
    nodeId: string,
    sig: SigHeaders,
    card: string,
    memberSig: SigHeaders,
    body: Bytes)

  /** A body that was refused while it was parsed and validated, or its fields. */
  datatype Checked<T> = Malformed(code: nat) | Fields(value: T)

  datatype RegisterBody = RegisterBody(
    nodeId: string, pubkey: string, verifyKey: string, wattage: real, measured: bool, neighborhood: string)
  datatype Beat = Beat(nodeId: string, wattage: Option<Option<real>>, measured: Option<Option<bool>>)
  datatype SubmitBody = SubmitBody(toNode: string, blob: string, replyKey: string, idempotencyKey: Option<string>)
  datatype ResultBody = ResultBody(jobId: string, blob: string, receipt: Option<Json>)

  /** What a pull hands to a node; its status is always `running`. */
  datatype Envelope = Envelope(jobId: string, toNode: string, blob: string, replyKey: string)

  datatype Reply =
    | Refused(code: nat)
    | Registered(rotated: bool)
    | Beaten
    | Submitted(jobId: string, duplicate: bool)
    | Pulled(jobs: seq<Envelope>)
    | Accepted(duplicate: bool)

  datatype Outcome = Outcome(state: State, reply: Reply)

  // ---------------------------------------------------------------- primitives

  function B64ToBytes(env: Env, s: string): Option<Bytes> {
    if s == "" || !IsBase64Text(s) then None else env.atob(s)
  }

  predicate IsKey32(env: Env, s: string) {
    B64ToBytes(env, s).Some? && |B64ToBytes(env, s).value| == KEY_BYTES
  }

  // ---------------------------------------------------------------- signatures

  datatype Verdict = Missing | BadTimestamp | BadNonce | Expired | BadEncoding | BadSignature | Genuine

  /** The part the node path and the member path share: format, window, encoding, signature. */
  function CheckHeaders(env: Env, req: Request, h: SigHeaders, key: string, now: nat): Verdict {
    if h.timestamp == "" || h.nonce == "" || h.signature == "" then Missing
    else if !IsTimestamp(h.timestamp) then BadTimestamp
    else if !IsHeaderToken(h.nonce) then BadNonce
    else if Abs(now / 1000 - Decimal.Read(h.timestamp)) > MAX_SKEW_S then Expired
    else
      match B64ToBytes(env, h.signature)
      case None => BadEncoding
      case Some(sig) =>
        if env.verify(key, SignedMessage(req.host, req.verb, req.path, h.timestamp, h.nonce, req.body), sig)
        then Genuine else BadSignature
  }

  function NonceRecord(now: nat): Nonce {
    Nonce(now / 1000, now + NONCE_TTL_S * 1000)
  }

  /** `checkSignature`: the store afterwards, and the refusal code or none. */
  function CheckSignature(env: Env, st: State, req: Request, key: string, now: nat): (State, Option<nat>) {
    var v := CheckHeaders(env, req, req.sig, key, now);
    if req.nodeId == "" || !IsNodeId(req.nodeId) || v != Genuine then (st, Some(401))
    else if (req.nodeId, req.sig.nonce) in st.nonces then (st, Some(401))
    else (Put(st, NonceKey(req.nodeId, req.sig.nonce), NonceValue(NonceRecord(now))), None)
  }

  // ---------------------------------------------------------------- member cards

  function FieldOf(doc: Json, name: string): Option<Json> {
    if doc.JsObject? && Codes(name) in doc.members then Some(doc.members[Codes(name)]) else None
  }

  /** A text field, when all of it is ASCII. */
  function Ascii(v: Option<Json>): Option<string> {
    match v
    case Some(JsText(s)) =>
      if forall i :: 0 <= i < |s| ==> s[i] < 128
      then Some(seq(|s|, i requires 0 <= i < |s| && s[i] < 128 => s[i] as char)) else None
    case _ => None
  }

  /** `Array.from(s).length`: code points, not code units. */
  function CodePoints(s: Name): nat {
    if s == [] then 0
    else if |s| > 1 && 0xd800 <= s[0] < 0xdc00 && 0xdc00 <= s[1] < 0xe000 then 1 + CodePoints(s[2..])
    else 1 + CodePoints(s[1..])
  }

  predicate IsUnitDigit(u: Unit) { 0x30 <= u <= 0x39 }

  /** The date every accepted `issued` value starts with. */
  predicate IsIssued(s: Name) {
    && 10 <= |s| <= 64
    && (forall i :: 0 <= i < 10 && i != 4 && i != 7 ==> IsUnitDigit(s[i]))
    && s[4] == 0x2d && s[7] == 0x2d
  }

  datatype CardCheck = CardMalformed | CardInvalid | NotSignedByClub | CardOf(card: Json, memberKey: string)

  function TextBytes(s: string): Bytes {
    Utf8(s)
  }

  /** `verifyCardDocument`. */
  ghost function VerifyCard(env: Env, doc: Json): CardCheck {
    var card := FieldOf(doc, "card");
    if card.None? || !card.value.JsObject? then CardMalformed
    else
      var sigText := Ascii(FieldOf(doc, "sig"));
      var sig := if sigText.Some? then B64ToBytes(env, sigText.value) else None;
      if sig.None? then CardMalformed
      else
        var member := FieldOf(card.value, "member");
        var key := Ascii(FieldOf(card.value, "member_verify_key"));
        var issued := FieldOf(card.value, "issued");
        var serial := FieldOf(card.value, "serial");
        if member.None? || !member.value.JsText? || !(1 <= CodePoints(member.value.s) <= CARD_MEMBER_MAX) then CardInvalid
        else if key.None? || !IsKey32(env, key.value) then CardInvalid
        else if issued.None? || !issued.value.JsText? || !IsIssued(issued.value.s) then CardInvalid
        else if serial.None? || !serial.value.JsNum? || !IsSafeInteger(serial.value.num) then CardInvalid
        else
          match Canonical(card.value)
          case None => CardInvalid
          case Some(text) =>
            if env.verify(env.clubKey, TextBytes(text), sig.value) then CardOf(card.value, key.value)
            else NotSignedByClub
  }

  /** Who may submit: anyone, nobody with this request, or the holder of a member key. */
  datatype Gate = Open | Denied | ByMember(key: string)

  /** `checkMemberCard` and `checkMemberSignature`, up to the nonce. */
  ghost function MemberGate(env: Env, req: Request, now: nat): Gate {
    if env.clubKey == "" then Open
    else if req.card == "" || |req.card| > MAX_CARD_HEADER then Denied
    else
      match B64ToBytes(env, req.card)
      case None => Denied
      case Some(raw) =>
        match env.parseCard(raw)
        case None => Denied
        case Some(doc) =>
          match VerifyCard(env, doc)
          case CardOf(_, key) => if CheckHeaders(env, req, req.memberSig, key, now) == Genuine then ByMember(key) else Denied
          case _ => Denied
  }

  // ---------------------------------------------------------------- nodes

  /** `handleRegister`: the current key signs, or the new one for a new id. */
  function Register(env: Env, st: State, req: Request, checked: Checked<RegisterBody>, now: nat): Outcome {
    match checked
    case Malformed(code) => Outcome(st, Refused(code))
    case Fields(body) =>
      if !IsNodeId(body.nodeId) || req.nodeId != body.nodeId then Outcome(st, Refused(400))
      else if !IsKey32(env, body.pubkey) || !IsKey32(env, body.verifyKey) then Outcome(st, Refused(400))
      else
        var known := body.nodeId in st.nodes;
        var key := if known then st.nodes[body.nodeId].verifyKey else body.verifyKey;
        var (st1, refusal) := CheckSignature(env, st, req, key, now);
        if refusal.Some? then Outcome(st1, Refused(refusal.value))
        else
          var since := if known then st.nodes[body.nodeId].registeredMs else now;
          var node := Node(body.nodeId, body.pubkey, body.verifyKey, body.wattage, body.measured, body.neighborhood, now, since);
          Outcome(Put(st1, NodeKey(body.nodeId), NodeValue(node)), Registered(known))
  }

  /** `handleHeartbeat`. A present field holds its value, or nothing when it does not validate. */
  function Heartbeat(env: Env, st: State, req: Request, checked: Checked<Beat>, now: nat): Outcome {
    match checked
    case Malformed(code) => Outcome(st, Refused(code))
    case Fields(body) =>
      if !IsNodeId(body.nodeId) || req.nodeId != body.nodeId then Outcome(st, Refused(400))
      else if body.nodeId !in st.nodes then Outcome(st, Refused(404))
      else
        var node := st.nodes[body.nodeId];
        var (st1, refusal) := CheckSignature(env, st, req, node.verifyKey, now);
        if refusal.Some? then Outcome(st1, Refused(refusal.value))
        else if body.wattage == Some(None) || body.measured == Some(None) then Outcome(st1, Refused(400))
        else
          var wattage := if body.wattage.Some? then body.wattage.value.value else node.wattage;
          var measured := if body.measured.Some? then body.measured.value.value else node.measured;
          var beaten := node.(wattage := wattage, measured := measured, lastSeen := now);
          Outcome(Put(st1, NodeKey(body.nodeId), NodeValue(beaten)), Beaten)
  }

  // ---------------------------------------------------------------- jobs

  function NewJob(body: SubmitBody, jobId: string, now: nat): Job {
    Job(jobId, body.toNode, body.blob, body.replyKey, Queued, 0, 0, now, now, None, None, None)
  }

  /** `handleSubmit` after the gate. `jobId` is what `randomUUID` would return. */
  function Enqueue(st: State, body: SubmitBody, jobId: string, now: nat): Outcome {
    if !IsNodeId(body.toNode) then Outcome(st, Refused(400))
    else if body.idempotencyKey.Some? && !IsIdempotencyKey(body.idempotencyKey.value) then Outcome(st, Refused(400))
    else if body.toNode !in st.nodes then Outcome(st, Refused(404))
    else if body.idempotencyKey.Some? && (body.toNode, body.idempotencyKey.value) in st.idem then
      Outcome(st, Submitted(st.idem[(body.toNode, body.idempotencyKey.value)], true))
    else if |ListQueue(st, body.toNode, MAX_QUEUED_PER_NODE)| >= MAX_QUEUED_PER_NODE then Outcome(st, Refused(429))
    else
      var st1 := Put(st, JobKey(jobId), JobValue(NewJob(body, jobId, now)));
      var st2 := Put(st1, QueueKey(Slot(body.toNode, now, jobId)), EntryValue(Some(jobId)));
      var st3 := if body.idempotencyKey.None? then st2
                 else Put(st2, IdemKey(body.toNode, body.idempotencyKey.value), IdemValue(jobId));
      Outcome(st3, Submitted(jobId, false))
  }

  /** `handleSubmit`: size, gate, body, then the queue. */
  ghost function Submit(
      env: Env, st: State, req: Request, oversize: bool, checked: Checked<SubmitBody>, jobId: string, now: nat): Outcome
  {
    if oversize then Outcome(st, Refused(413))
    else SubmitThrough(st, MemberGate(env, req, now), req.memberSig.nonce, checked, jobId, now)
  }

  /** The submit once the gate has spoken; a member's nonce is spent before the body is read. */
  function SubmitThrough(
      st: State, gate: Gate, nonce: string, checked: Checked<SubmitBody>, jobId: string, now: nat): Outcome
  {
    match gate
    case Denied => Outcome(st, Refused(403))
    case ByMember(key) =>
      if (key, nonce) in st.memberNonces then Outcome(st, Refused(403))
      else Admit(Put(st, MemberNonceKey(key, nonce), NonceValue(NonceRecord(now))), checked, jobId, now)
    case Open => Admit(st, checked, jobId, now)
  }

  function Admit(st: State, checked: Checked<SubmitBody>, jobId: string, now: nat): Outcome {
    match checked
    case Malformed(code) => Outcome(st, Refused(code))
    case Fields(body) => Enqueue(st, body, jobId, now)
  }

  function EnvelopeOf(job: Job): Envelope {
    Envelope(job.jobId, job.toNode, job.blob, job.replyKey)
  }

  function Leased(job: Job, now: nat): Job {
    job.(status := Running, attempts := job.attempts + 1, leaseUntil := now + LEASE_MS, updatedMs := now)
  }

  function GivenUp(job: Job, now: nat): Job {
    job.(status := Failed, updatedMs := now, failedReason := Some("lease expired after max attempts"))
  }

  /** What the pull loop does with one index entry. */
  datatype Action = Drop | Skip | GiveUp | Deliver

  function Decide(st: State, k: Slot, node: string, now: nat): Action {
    if k !in st.index || st.index[k].None? || st.index[k].value !in st.jobs then Drop
    else
      var job := st.jobs[st.index[k].value];
      if job.status.Done? || job.status.Failed? then Drop
      else if job.toNode != node then Skip
      else if job.status.Running? && job.leaseUntil > now then Skip
      else if job.status.Running? && job.attempts >= MAX_ATTEMPTS then GiveUp
      else Deliver
  }

  datatype PullOut = PullOut(state: State, jobs: seq<Envelope>)

  /** One round of the pull loop. */
  function PullStep(st: State, k: Slot, node: string, now: nat): PullOut {
    match Decide(st, k, node, now)
    case Drop => PullOut(Delete(st, QueueKey(k)), [])
    case Skip => PullOut(st, [])
    case GiveUp =>
      var id := st.index[k].value;
      PullOut(Delete(Put(st, JobKey(id), JobValue(GivenUp(st.jobs[id], now))), QueueKey(k)), [])
    case Deliver =>
      var id := st.index[k].value;
      var job := Leased(st.jobs[id], now);
      PullOut(Put(st, JobKey(id), JobValue(job)), [EnvelopeOf(job)])
  }

  /** The pull loop over a listing, with room for `room` more jobs. */
  function PullLoop(st: State, keys: seq<Slot>, node: string, now: nat, room: nat): PullOut
    decreases |keys|
  {
    if keys == [] || room == 0 then PullOut(st, [])
    else
      var one := PullStep(st, keys[0], node, now);
      var rest := PullLoop(one.state, keys[1..], node, now, room - |one.jobs|);
      PullOut(rest.state, one.jobs + rest.jobs)
  }

  /** `handlePull`. `nodeId` is the query parameter. */
  function Pull(env: Env, st: State, req: Request, nodeId: string, now: nat): Outcome {
    if !IsNodeId(nodeId) then Outcome(st, Refused(400))
    else if req.nodeId != nodeId then Outcome(st, Refused(403))
    else if nodeId !in st.nodes then Outcome(st, Refused(404))
    else
      var (st1, refusal) := CheckSignature(env, st, req, st.nodes[nodeId].verifyKey, now);
      if refusal.Some? then Outcome(st1, Refused(refusal.value))
      else
        var out := PullLoop(st1, ListQueue(st1, nodeId, PULL_MAX * 4), nodeId, now, PULL_MAX);
        Outcome(out.state, Pulled(out.jobs))
  }

  function Finished(job: Job, body: ResultBody, now: nat): Job {
    job.(status := Done, result := Some(body.blob), leaseUntil := 0, updatedMs := now,
         receipt := if body.receipt.Some? then body.receipt else job.receipt)
  }

  /** `readCounter`: anything but a positive number reads as zero. */
  function ReadCounter(c: Option<int>): nat {
    if c.Some? && c.value > 0 then c.value else 0
  }

  /** `handleResult`. */
  function Result(env: Env, st: State, req: Request, checked: Checked<ResultBody>, now: nat): Outcome {
    match checked
    case Malformed(code) => Outcome(st, Refused(code))
    case Fields(body) =>
      if !IsJobId(body.jobId) then Outcome(st, Refused(400))
      else if !IsNodeId(req.nodeId) then Outcome(st, Refused(401))
      else if req.nodeId !in st.nodes then Outcome(st, Refused(404))
      else
        var (st1, refusal) := CheckSignature(env, st, req, st.nodes[req.nodeId].verifyKey, now);
        if refusal.Some? then Outcome(st1, Refused(refusal.value))
        else if body.jobId !in st1.jobs then Outcome(st1, Refused(404))
        else
          var job := st1.jobs[body.jobId];
          if job.toNode != req.nodeId then Outcome(st1, Refused(403))
          else if job.status.Done? then Outcome(st1, Accepted(true))
          else if !job.status.Running? then Outcome(st1, Refused(409))
          else
            var st2 := Put(st1, JobKey(job.jobId), JobValue(Finished(job, body, now)));
            var st3 := Delete(st2, QueueKey(Slot(job.toNode, job.createdMs, job.jobId)));
            Outcome(Put(st3, JobsDoneKey, CountValue(ReadCounter(st3.jobsDone) + 1)), Accepted(false))
  }

  /** `handleJobStatus` for a job that exists. */
  datatype StatusView = NotDone(status: Status) | Finally(blob: Option<string>, receipt: Option<Json>)

  function JobStatus(st: State, jobId: string): Option<StatusView> {
    if !IsJobId(jobId) || jobId !in st.jobs then None
    else
      var job := st.jobs[jobId];
      Some(if job.status.Done? then Finally(job.result, job.receipt) else NotDone(job.status))
  }

  // ---------------------------------------------------------------- events and runs

  datatype Call =
    | DoRegister(register: Checked<RegisterBody>)
    | DoHeartbeat(beat: Checked<Beat>)
    | DoSubmit(oversize: bool, submit: Checked<SubmitBody>, jobId: string)
    | DoPull(nodeId: string)
    | DoResult(result: Checked<ResultBody>)

  /** A request handled atomically, or something the store does by itself. */
  datatype Event =
    | Handle(now: nat, req: Request, call: Call)
    | Expire(now: nat, key: Key)
    | Resurface(now: nat, slot: Slot, entry: Option<string>)

  ghost function Step(env: Env, st: State, ev: Event): Outcome {
    match ev
    case Expire(_, key) => Outcome(Delete(st, key), Refused(0))
    case Resurface(_, slot, entry) => Outcome(Put(st, QueueKey(slot), EntryValue(entry)), Refused(0))
    case Handle(now, req, call) =>
      match call
      case DoRegister(body) => Register(env, st, req, body, now)
      case DoHeartbeat(body) => Heartbeat(env, st, req, body, now)
      case DoSubmit(oversize, body, jobId) => Submit(env, st, req, oversize, body, jobId, now)
      case DoPull(nodeId) => Pull(env, st, req, nodeId, now)
      case DoResult(body) => Result(env, st, req, body, now)
  }

  ghost function Run(env: Env, st: State, events: seq<Event>): State
    decreases |events|
  {
    if events == [] then st else Run(env, Step(env, st, events[0]).state, events[1..])
  }
}
