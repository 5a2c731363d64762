/** The coordinator as a program over the key/value namespace: each method does what its function says. */
module Coordinator {
  import opened Base
  import opened Cards
  import opened Keys
  import opened JsonValue
  import opened Signing
  import opened Store
  import opened Storage
  import Handlers
  import opened HandlerTypes = Handlers
  import Decimal

  class Coordinator {
    const env: Env
    const storage: Namespace

    ghost predicate Valid()
      reads this, storage
    {
      storage.Valid()
    }

    constructor (env: Env, storage: Namespace)
      requires storage.Valid()
      ensures this.env == env && this.storage == storage && Valid()
    {
      this.env, this.storage := env, storage;
    }

    // -------------------------------------------------------------- signatures

    method BuildSignedMessage(req: Request, timestamp: string, nonce: string) returns (msg: Bytes)
      ensures msg == SignedMessage(req.host, req.verb, req.path, timestamp, nonce, req.body)
    {
      var head := Utf8(PROTOCOL_PREFIX + Head(req.host, req.verb, req.path, timestamp, nonce));
      var bytes := ConcatBytes([head, req.body]);
      assert Concat([head, req.body]) == head + Concat([req.body]) == head + (req.body + Concat([]));
      return bytes[..];
    }

    /** The checks both signature paths make, in order, up to the nonce. */
    method VerifyHeaders(req: Request, h: SigHeaders, key: string, now: nat) returns (v: Verdict)
      ensures v == CheckHeaders(env, req, h, key, now)
    {
      if h.timestamp == "" || h.nonce == "" || h.signature == "" { return Missing; }
      if !IsTimestamp(h.timestamp) { return BadTimestamp; }
      if !IsHeaderToken(h.nonce) { return BadNonce; }
      var nowS := now / 1000;
      if Abs(nowS - Decimal.Read(h.timestamp)) > MAX_SKEW_S { return Expired; }
      var sig := B64ToBytes(env, h.signature);
      if sig.None? { return BadEncoding; }
      var msg := BuildSignedMessage(req, h.timestamp, h.nonce);
      if !env.verify(key, msg, sig.value) { return BadSignature; }
      return Genuine;
    }

    /** Reads the nonce record and writes it when there is none. */
    method SpendNonce(name: string, now: nat, ghost k: Key) returns (unused: bool)
      requires Valid() && WellFormed(k) && name == Render(k) && (k.NonceKey? || k.MemberNonceKey?)
      modifies storage
      ensures Valid() && unused == Lookup(old(storage.view), k).None?
      ensures storage.view == if unused then Put(old(storage.view), k, NonceValue(NonceRecord(now))) else old(storage.view)
    {
      var seen := storage.Get(name, k);
      if seen.Some? { return false; }
      storage.Put(name, NonceValue(NonceRecord(now)), k);
      return true;
    }

    method CheckSignature(req: Request, key: string, now: nat) returns (refusal: Option<nat>)
      requires Valid()
      modifies storage
      ensures Valid()
      ensures (storage.view, refusal) == Handlers.CheckSignature(env, old(storage.view), req, key, now)
    {
      if req.nodeId == "" || !IsNodeId(req.nodeId) { return Some(401); }
      var v := VerifyHeaders(req, req.sig, key, now);
      if v != Genuine { return Some(401); }
      var k := NonceKey(req.nodeId, req.sig.nonce);
      var unused := SpendNonce(Render(k), now, k);
      return if unused then None else Some(401);
    }

    /** `checkMemberCard` with its signature half, up to the nonce. */
    method CheckMemberCard(req: Request, now: nat) returns (gate: Gate)
      ensures gate == MemberGate(env, req, now)
    {
      if env.clubKey == "" { return Open; }
      if req.card == "" || |req.card| > MAX_CARD_HEADER { return Denied; }
      var raw := B64ToBytes(env, req.card);
      if raw.None? { return Denied; }
      var doc := env.parseCard(raw.value);
      if doc.None? { return Denied; }
      var card := VerifyCardDocument(doc.value);
      if !card.CardOf? { return Denied; }
      var v := VerifyHeaders(req, req.memberSig, card.memberKey, now);
      return if v == Genuine then ByMember(card.memberKey) else Denied;
    }

    /** Accepts a document exactly as a complete card whose canonical bytes the club's key verifies. */
    method VerifyCardDocument(doc: Json) returns (r: CardCheck)
      ensures r == VerifyCard(env, doc)
      ensures forall card, key :: r == CardOf(card, key) <==> IsClubCard(env, doc, card, key)
    {
      hide IsClubCard, Canonical, CodePoints, IsIssued, IsKey32, B64ToBytes, FieldOf, Ascii, Utf8;
      forall card, key ensures VerifyCard(env, doc) == CardOf(card, key) <==> IsClubCard(env, doc, card, key) {
        AcceptedExactly(env, doc, card, key);
      }
      var card := FieldOf(doc, "card");
      if card.None? || !card.value.JsObject? { return CardMalformed; }
      var sigText := Ascii(FieldOf(doc, "sig"));
      if sigText.None? { return CardMalformed; }
      var sig := B64ToBytes(env, sigText.value);
      if sig.None? { return CardMalformed; }
      var member := FieldOf(card.value, "member");
      if member.None? || !member.value.JsText? { return CardInvalid; }
      if !(1 <= CodePoints(member.value.s) <= CARD_MEMBER_MAX) { return CardInvalid; }
      var key := Ascii(FieldOf(card.value, "member_verify_key"));
      if key.None? || !IsKey32(env, key.value) { return CardInvalid; }
      var issued := FieldOf(card.value, "issued");
      if issued.None? || !issued.value.JsText? || !IsIssued(issued.value.s) { return CardInvalid; }
      var serial := FieldOf(card.value, "serial");
      if serial.None? || !serial.value.JsNum? || !IsSafeInteger(serial.value.num) { return CardInvalid; }
      var text := CanonicalJson(card.value);
      if text.None? { return CardInvalid; }
      if !env.verify(env.clubKey, TextBytes(text.value), sig.value) { return NotSignedByClub; }
      return CardOf(card.value, key.value);
    }

    lemma GateKeyIsText(req: Request, now: nat)
      ensures MemberGate(env, req, now).ByMember? ==>
                IsBase64Text(MemberGate(env, req, now).key) && IsHeaderToken(req.memberSig.nonce)
    {
    }

    // -------------------------------------------------------------- nodes

    method Register(req: Request, checked: Checked<RegisterBody>, now: nat) returns (reply: Reply)
      requires Valid()
      modifies storage
      ensures Valid() && Outcome(storage.view, reply) == Handlers.Register(env, old(storage.view), req, checked, now)
    {
      if checked.Malformed? { return Refused(checked.code); }
      var body := checked.value;
      if !IsNodeId(body.nodeId) || req.nodeId != body.nodeId { return Refused(400); }
      if !IsKey32(env, body.pubkey) || !IsKey32(env, body.verifyKey) { return Refused(400); }
      var k := NodeKey(body.nodeId);
      var existing := storage.Get(Render(k), k);
      var key := if existing.Some? then existing.value.node.verifyKey else body.verifyKey;
      var refusal := CheckSignature(req, key, now);
      if refusal.Some? { return Refused(refusal.value); }
      var since := if existing.Some? then existing.value.node.registeredMs else now;
      var node := Node(body.nodeId, body.pubkey, body.verifyKey, body.wattage, body.measured, body.neighborhood, now, since);
      storage.Put(Render(k), NodeValue(node), k);
      return Registered(existing.Some?);
    }

    method Heartbeat(req: Request, checked: Checked<Beat>, now: nat) returns (reply: Reply)
      requires Valid()
      modifies storage
      ensures Valid() && Outcome(storage.view, reply) == Handlers.Heartbeat(env, old(storage.view), req, checked, now)
    {
      if checked.Malformed? { return Refused(checked.code); }
      var body := checked.value;
      if !IsNodeId(body.nodeId) || req.nodeId != body.nodeId { return Refused(400); }
      var k := NodeKey(body.nodeId);
      var found := storage.Get(Render(k), k);
      if found.None? { return Refused(404); }
      var node := found.value.node;
      var refusal := CheckSignature(req, node.verifyKey, now);
      if refusal.Some? { return Refused(refusal.value); }
      if body.wattage.Some? {
        if body.wattage.value.None? { return Refused(400); }
        node := node.(wattage := body.wattage.value.value);
      }
      if body.measured.Some? {
        if body.measured.value.None? { return Refused(400); }
        node := node.(measured := body.measured.value.value);
      }
      node := node.(lastSeen := now);
      storage.Put(Render(k), NodeValue(node), k);
      return Beaten;
    }

    // -------------------------------------------------------------- jobs

    method Submit(req: Request, oversize: bool, checked: Checked<SubmitBody>, jobId: string, now: nat) returns (reply: Reply)
      requires Valid() && IsJobId(jobId) && now < PADDED_LIMIT
      modifies storage
      ensures Valid()
      ensures Outcome(storage.view, reply) == Handlers.Submit(env, old(storage.view), req, oversize, checked, jobId, now)
    {
      if oversize { return Refused(413); }
      var gate := CheckMemberCard(req, now);
      GateKeyIsText(req, now);
      if gate.Denied? { return Refused(403); }
      if gate.ByMember? {
        var k := MemberNonceKey(gate.key, req.memberSig.nonce);
        var unused := SpendNonce(Render(k), now, k);
        if !unused { return Refused(403); }
      }
      if checked.Malformed? { return Refused(checked.code); }
      reply := EnqueueJob(checked.value, jobId, now);
    }

    method EnqueueJob(body: SubmitBody, jobId: string, now: nat) returns (reply: Reply)
      requires Valid() && IsJobId(jobId) && now < PADDED_LIMIT
      modifies storage
      ensures Valid() && Outcome(storage.view, reply) == Enqueue(old(storage.view), body, jobId, now)
    {
      if !IsNodeId(body.toNode) { return Refused(400); }
      if body.idempotencyKey.Some? && !IsIdempotencyKey(body.idempotencyKey.value) { return Refused(400); }
      var node := storage.Get(Render(NodeKey(body.toNode)), NodeKey(body.toNode));
      if node.None? { return Refused(404); }
      if body.idempotencyKey.Some? {
        var k := IdemKey(body.toNode, body.idempotencyKey.value);
        var prior := storage.Get(Render(k), k);
        if prior.Some? { return Submitted(prior.value.jobId, true); }
      }
      var backlog := storage.ListQueue(QueuePrefix(body.toNode), MAX_QUEUED_PER_NODE, body.toNode);
      if |backlog| >= MAX_QUEUED_PER_NODE { return Refused(429); }
      var record := NewJob(body, jobId, now);
      storage.Put(Render(JobKey(jobId)), JobValue(record), JobKey(jobId));
      var slot := QueueKey(Slot(body.toNode, now, jobId));
      storage.Put(Render(slot), EntryValue(Some(jobId)), slot);
      if body.idempotencyKey.Some? {
        var k := IdemKey(body.toNode, body.idempotencyKey.value);
        storage.Put(Render(k), IdemValue(jobId), k);
      }
      return Submitted(jobId, false);
    }

    /** The body of the pull loop, for the listed name of one index entry. */
    method PullOne(name: string, nodeId: string, now: nat, ghost k: Slot) returns (found: seq<Envelope>)
      requires Valid() && WellFormedSlot(k) && name == RenderSlot(k)
      modifies storage
      ensures Valid() && PullOut(storage.view, found) == PullStep(old(storage.view), k, nodeId, now)
    {
      hide Represents, RenderSlot, Join, IsNodeId;
      var entry := storage.Get(name, QueueKey(k));
      if entry.None? || entry.value.entry.None? {
        storage.Delete(name, QueueKey(k));
        return [];
      }
      var jobId := entry.value.entry.value;
      var record := storage.Get(Render(JobKey(jobId)), JobKey(jobId));
      if record.None? {
        storage.Delete(name, QueueKey(k));
        return [];
      }
      var job := record.value.job;
      if job.status.Done? || job.status.Failed? {
        storage.Delete(name, QueueKey(k));
        return [];
      }
      if job.toNode != nodeId { return []; }
      if job.status.Running? && job.leaseUntil > now { return []; }
      if job.status.Running? && job.attempts >= MAX_ATTEMPTS {
        job := job.(status := Failed, updatedMs := now, failedReason := Some("lease expired after max attempts"));
        storage.Put(Render(JobKey(jobId)), JobValue(job), JobKey(jobId));
        storage.Delete(name, QueueKey(k));
        return [];
      }
      job := job.(status := Running, attempts := job.attempts + 1, leaseUntil := now + LEASE_MS, updatedMs := now);
      storage.Put(Render(JobKey(jobId)), JobValue(job), JobKey(jobId));
      return [EnvelopeOf(job)];
    }

    method Pull(req: Request, nodeId: string, now: nat) returns (reply: Reply)
      requires Valid()
      modifies storage
      ensures Valid() && Outcome(storage.view, reply) == Handlers.Pull(env, old(storage.view), req, nodeId, now)
    {
      if !IsNodeId(nodeId) { return Refused(400); }
      if req.nodeId != nodeId { return Refused(403); }
      var node := storage.Get(Render(NodeKey(nodeId)), NodeKey(nodeId));
      if node.None? { return Refused(404); }
      var refusal := CheckSignature(req, node.value.node.verifyKey, now);
      if refusal.Some? { return Refused(refusal.value); }
      var jobs := PullListed(nodeId, now);
      return Pulled(jobs);
    }

    /** The loop over the listed window, up to ten jobs. */
    method PullListed(nodeId: string, now: nat) returns (jobs: seq<Envelope>)
      requires Valid() && IsNodeId(nodeId)
      modifies storage
      ensures Valid()
      ensures var st := old(storage.view);
              PullOut(storage.view, jobs) == PullLoop(st, ListQueue(st, nodeId, PULL_MAX * 4), nodeId, now, PULL_MAX)
    {
      hide Represents, Render, PullStep, Store.ListQueue, Queue;
      ghost var slots := ListQueue(storage.view, nodeId, PULL_MAX * 4);
      var listed := storage.ListQueue(QueuePrefix(nodeId), PULL_MAX * 4, nodeId);
      jobs := [];
      var i := 0;
      assert slots[0..] == slots;
      while i < |listed| && |jobs| < PULL_MAX
        invariant Valid() && 0 <= i <= |listed| && |jobs| <= PULL_MAX
        invariant var rest := PullLoop(storage.view, slots[i..], nodeId, now, PULL_MAX - |jobs|);
                  PullLoop(old(storage.view), slots, nodeId, now, PULL_MAX) == PullOut(rest.state, jobs + rest.jobs)
      {
        ghost var here := storage.view;
        var found := PullOne(listed[i], nodeId, now, slots[i]);
        LoopAdvances(here, slots, i, nodeId, now, jobs, PullOut(storage.view, found));
        jobs := jobs + found;
        i := i + 1;
      }
      assert jobs + [] == jobs;
    }

    lemma LoopAdvances(st: State, slots: seq<Slot>, i: nat, node: string, now: nat, jobs: seq<Envelope>, one: PullOut)
      requires i < |slots| && |jobs| < PULL_MAX && one == PullStep(st, slots[i], node, now)
      ensures |jobs + one.jobs| <= PULL_MAX
      ensures var rest := PullLoop(st, slots[i..], node, now, PULL_MAX - |jobs|);
              var next := PullLoop(one.state, slots[i + 1..], node, now, PULL_MAX - |jobs + one.jobs|);
              rest.state == next.state && jobs + rest.jobs == (jobs + one.jobs) + next.jobs
    {
      hide PullStep;
      assert slots[i..][1..] == slots[i + 1..];
      assert |one.jobs| <= 1 by { StepFindsOne(st, slots[i], node, now); }
    }

    lemma StepFindsOne(st: State, k: Slot, node: string, now: nat)
      ensures |PullStep(st, k, node, now).jobs| <= 1
    {
    }

    method BumpJobsDone()
      requires Valid()
      modifies storage
      ensures Valid()
      ensures storage.view == Put(old(storage.view), JobsDoneKey, CountValue(ReadCounter(old(storage.view).jobsDone) + 1))
    {
      var current := storage.Get(Render(JobsDoneKey), JobsDoneKey);
      var n := if current.Some? && current.value.count > 0 then current.value.count else 0;
      storage.Put(Render(JobsDoneKey), CountValue(n + 1), JobsDoneKey);
    }

    method Result(req: Request, checked: Checked<ResultBody>, now: nat) returns (reply: Reply)
      requires Valid()
      modifies storage
      ensures Valid() && Outcome(storage.view, reply) == Handlers.Result(env, old(storage.view), req, checked, now)
    {
      hide Represents, Render, Handlers.CheckSignature, IsNodeId;
      if checked.Malformed? { return Refused(checked.code); }
      var body := checked.value;
      if !IsJobId(body.jobId) { return Refused(400); }
      if !IsNodeId(req.nodeId) { return Refused(401); }
      var node := storage.Get(Render(NodeKey(req.nodeId)), NodeKey(req.nodeId));
      if node.None? { return Refused(404); }
      var refusal := CheckSignature(req, node.value.node.verifyKey, now);
      if refusal.Some? { return Refused(refusal.value); }
      var record := storage.Get(Render(JobKey(body.jobId)), JobKey(body.jobId));
      if record.None? { return Refused(404); }
      var job := record.value.job;
      if job.toNode != req.nodeId { return Refused(403); }
      if job.status.Done? { return Accepted(true); }
      if !job.status.Running? { return Refused(409); }
      job := job.(status := Done, result := Some(body.blob));
      if body.receipt.Some? { job := job.(receipt := body.receipt); }
      job := job.(leaseUntil := 0, updatedMs := now);
      storage.Put(Render(JobKey(job.jobId)), JobValue(job), JobKey(job.jobId));
      var slot := QueueKey(Slot(job.toNode, job.createdMs, job.jobId));
      storage.Delete(Render(slot), slot);
      BumpJobsDone();
      return Accepted(false);
    }

    method JobStatus(jobId: string) returns (view: Option<StatusView>)
      requires Valid()
      ensures view == Handlers.JobStatus(storage.view, jobId)
    {
      if !IsJobId(jobId) { return None; }
      var record := storage.Get(Render(JobKey(jobId)), JobKey(jobId));
      if record.None? { return None; }
      var job := record.value.job;
      if job.status.Done? { return Some(Finally(job.result, job.receipt)); }
      return Some(NotDone(job.status));
    }

    /** One request: the string-keyed store moves exactly as the typed machine steps. */
    method Serve(now: nat, req: Request, call: Call) returns (reply: Reply)
      requires Valid() && now < PADDED_LIMIT && (call.DoSubmit? ==> IsJobId(call.jobId))
      modifies storage
      ensures Valid() && Outcome(storage.view, reply) == Step(env, old(storage.view), Handle(now, req, call))
    {
      match call {
        case DoRegister(body) => reply := Register(req, body, now);
        case DoHeartbeat(body) => reply := Heartbeat(req, body, now);
        case DoSubmit(oversize, body, jobId) => reply := Submit(req, oversize, body, jobId, now);
        case DoPull(nodeId) => reply := Pull(req, nodeId, now);
        case DoResult(body) => reply := Result(req, body, now);
      }
    }
  }
}
