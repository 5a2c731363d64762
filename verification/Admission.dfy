/** Who is let in, exactly: every request that is signed as the protocol says is accepted, and no other. */
module Admission {
  import opened Base
  import opened Keys
  import opened Base64
  import opened JsonValue
  import opened Signing
  import opened Store
  import opened Handlers
  import opened Cards
  import opened Shapes
  import opened Decimal

  // ---------------------------------------------------------------- timestamps

  /** A timestamp passes exactly when it is the numeral of one number in at most fifteen digits. */
  lemma TimestampExactly(s: string)
    ensures IsTimestamp(s) <==> |s| <= 15 && exists t: nat :: Numeral(s, t)
    ensures IsTimestamp(s) ==> forall t: nat :: Numeral(s, t) <==> t == Read(s)
  {
    hide Read;
    if IsTimestamp(s) {
      var zeros := EveryDigitStringIsANumeral(s);
      assert Numeral(s, Read(s));
    }
    forall t: nat | Numeral(s, t) ensures s != "" && AllDigits(s) && Read(s) == t {
      NumeralReads(s, t);
    }
  }

  // ---------------------------------------------------------------- the signed text

  /** The bytes a signature covers, written out. */
  function Framed(req: Request, h: SigHeaders): Bytes {
    Utf8("nycc-grid-v1|" + req.host + "\n" + req.verb + "\n" + req.path + "\n" + h.timestamp + "\n" + h.nonce + "\n") + req.body
  }

  /** The JavaScript builder signs exactly those bytes. */
  lemma FramedExactly(req: Request, h: SigHeaders)
    ensures SignedMessage(req.host, req.verb, req.path, h.timestamp, h.nonce, req.body) == Framed(req, h)
  {
    hide Utf8;
    FrameText("nycc-grid-v1|", req.host, req.verb, req.path, h.timestamp, h.nonce);
  }

  lemma FrameText(p: string, host: string, verb: string, path: string, timestamp: string, nonce: string)
    ensures p + Head(host, verb, path, timestamp, nonce)
         == p + host + "\n" + verb + "\n" + path + "\n" + timestamp + "\n" + nonce + "\n"
  {
    assert Field(nonce, "") == nonce + "\n";
    assert p + (host + "\n" + (verb + "\n" + (path + "\n" + (timestamp + "\n" + (nonce + "\n")))))
        == p + host + "\n" + verb + "\n" + path + "\n" + timestamp + "\n" + nonce + "\n";
  }

  /** The Python builder signs the same text for an upper-case method. */
  lemma PyFramedExactly(req: Request, h: SigHeaders)
    ensures Upper(req.verb) == req.verb ==>
              PySigningMessage(req.host, req.verb, req.path, h.timestamp, h.nonce, req.body) == Framed(req, h)
  {
    hide Utf8;
    FrameText("nycc-grid-v1|", req.host, req.verb, req.path, h.timestamp, h.nonce);
    assert SIGN_DOMAIN + "|" == "nycc-grid-v1|";
  }

  // ---------------------------------------------------------------- signatures

  /** The timestamp names a second within 300 of the clock's. */
  ghost predicate Timed(timestamp: string, now: nat) {
    |timestamp| <= 15 && exists t: nat :: Numeral(timestamp, t) && -300 <= now / 1000 - t <= 300
  }

  ghost predicate NonceText(nonce: string) {
    1 <= |nonce| <= 128 && forall i :: 0 <= i < |nonce| ==> IsSextet(nonce[i]) || nonce[i] == '='
  }

  /** The headers carry a fresh-enough time, a nonce, and a signature of this request that the key verifies. */
  ghost predicate WellSigned(env: Env, req: Request, h: SigHeaders, key: string, now: nat) {
    && Timed(h.timestamp, now) && NonceText(h.nonce) && Shaped(h.signature)
    && env.atob(h.signature).Some? && env.verify(key, Framed(req, h), env.atob(h.signature).value)
  }

  /** What the shared half of the two signature checks lets through: neither more nor less. */
  lemma GenuineExactly(env: Env, req: Request, h: SigHeaders, key: string, now: nat)
    ensures CheckHeaders(env, req, h, key, now) == Genuine <==> WellSigned(env, req, h, key, now)
  {
    hide IsTimestamp, IsHeaderToken, IsBase64Text, IsSextet, SignedMessage, Framed, Numeral, Read, Shaped;
    TimestampExactly(h.timestamp);
    HeaderTokenExactly(h.nonce);
    ShapedExactly(h.signature);
    if Shaped(h.signature) { ShapedNotEmpty(h.signature); }
    FramedExactly(req, h);
    if IsTimestamp(h.timestamp) {
      TimestampNotEmpty(h.timestamp);
      assert Numeral(h.timestamp, Read(h.timestamp));
    }
  }

  lemma TimestampNotEmpty(s: string)
    requires IsTimestamp(s)
    ensures s != "" && AllDigits(s)
  {
  }

  /** Each refusal names the first part that fails. */
  lemma VerdictExactly(env: Env, req: Request, h: SigHeaders, key: string, now: nat)
    ensures var v := CheckHeaders(env, req, h, key, now);
            var present := h.timestamp != "" && h.nonce != "" && h.signature != "";
            var dated := present && |h.timestamp| <= 15 && exists t: nat :: Numeral(h.timestamp, t);
            var fresh' := dated && NonceText(h.nonce) && Timed(h.timestamp, now);
            var decoded := fresh' && Shaped(h.signature) && env.atob(h.signature).Some?;
            && (v == Missing <==> !present)
            && (v == BadTimestamp <==> present && !dated)
            && (v == BadNonce <==> dated && !NonceText(h.nonce))
            && (v == Expired <==> dated && NonceText(h.nonce) && !Timed(h.timestamp, now))
            && (v == BadEncoding <==> fresh' && !decoded)
            && (v == BadSignature <==> decoded && !env.verify(key, Framed(req, h), env.atob(h.signature).value))
  {
    hide IsTimestamp, IsHeaderToken, IsBase64Text, IsSextet, SignedMessage, Framed, Numeral, Read, Shaped;
    TimestampExactly(h.timestamp);
    HeaderTokenExactly(h.nonce);
    ShapedExactly(h.signature);
    FramedExactly(req, h);
    if IsTimestamp(h.timestamp) { TimestampNotEmpty(h.timestamp); }
  }

  // ---------------------------------------------------------------- ids and keys

  ghost predicate NodeName(s: string) {
    1 <= |s| <= 64 && forall i :: 0 <= i < |s| ==> IsWordChar(s[i]) || s[i] in {'.', '_', '-'}
  }

  ghost predicate RetryKey(s: string) {
    1 <= |s| <= 128 && forall i :: 0 <= i < |s| ==> IsWordChar(s[i]) || s[i] in {'.', '_', ':', '-'}
  }

  lemma NamesExactly(s: string)
    ensures IsNodeId(s) <==> NodeName(s)
    ensures IsJobId(s) <==> NodeName(s)
    ensures IsIdempotencyKey(s) <==> RetryKey(s)
  {
    hide IsWordChar;
    NodeIdExactly(s);
    IdempotencyKeyExactly(s);
  }

  // ---------------------------------------------------------------- the node path

  /** A node's signature check answers with no refusal exactly for these requests. */
  lemma SignatureAcceptedExactly(env: Env, st: State, req: Request, key: string, now: nat)
    ensures CheckSignature(env, st, req, key, now).1.None? <==>
              NodeName(req.nodeId) && WellSigned(env, req, req.sig, key, now) && (req.nodeId, req.sig.nonce) !in st.nonces
    ensures CheckSignature(env, st, req, key, now).1.Some? ==> CheckSignature(env, st, req, key, now) == (st, Some(401))
  {
    hide CheckHeaders, WellSigned, IsNodeId, NodeName;
    GenuineExactly(env, req, req.sig, key, now);
    NamesExactly(req.nodeId);
    assert req.nodeId == "" ==> !NodeName(req.nodeId) by { NoEmptyName(); }
  }

  lemma NoEmptyName()
    ensures !NodeName("")
  {
  }

  /** A signature as the Python client makes it: the clock's second, some random bytes in base64, a base64 signature. */
  ghost predicate ClientSigned(env: Env, req: Request, h: SigHeaders, key: string, t: nat, random: Bytes, sig: Bytes) {
    && h == SigHeaders(Print(t), Encode(random), Encode(sig))
    && t < 1_000_000_000_000_000 && 1 <= |random| <= 96 && sig != []
    && env.atob(Encode(sig)) == Some(sig) && env.verify(key, Framed(req, h), sig)
  }

  lemma ClientIsWellSigned(env: Env, req: Request, h: SigHeaders, key: string, t: nat, random: Bytes, sig: Bytes, now: nat)
    requires ClientSigned(env, req, h, key, t, random, sig) && -300 <= now / 1000 - t <= 300
    ensures WellSigned(env, req, h, key, now)
  {
    hide Framed, IsSextet, Encode, Shaped, Numeral;
    EncodedIsToken(random);
    HeaderTokenExactly(h.nonce);
    EncodedIsShaped(sig);
    PowerValues();
    PrintLength(t, 15);
    PrintIsNumeral(t);
  }

  lemma PrintIsNumeral(t: nat)
    ensures Numeral(Print(t), t)
  {
    assert Zeros(0) + Print(t) == Print(t);
  }

  /** What a client signs within 300 seconds of the clock, under the right key and a new nonce, is accepted. */
  lemma ClientRequestAccepted(env: Env, st: State, req: Request, key: string, t: nat, random: Bytes, sig: Bytes, now: nat)
    requires NodeName(req.nodeId) && ClientSigned(env, req, req.sig, key, t, random, sig) && -300 <= now / 1000 - t <= 300
    requires (req.nodeId, Encode(random)) !in st.nonces
    ensures CheckSignature(env, st, req, key, now).1.None?
    ensures (req.nodeId, Encode(random)) in CheckSignature(env, st, req, key, now).0.nonces
  {
    hide WellSigned, NodeName, CheckHeaders, Framed, Encode;
    ClientIsWellSigned(env, req, req.sig, key, t, random, sig, now);
    SignatureAcceptedExactly(env, st, req, key, now);
    SignatureShape(env, st, req, key, now);
  }

  // ---------------------------------------------------------------- the member path

  /** The card header: base64 of at most 8192 characters that decodes to this document. */
  ghost predicate CarriesCard(env: Env, req: Request, doc: Json) {
    && Shaped(req.card) && |req.card| <= 8192
    && env.atob(req.card).Some? && env.parseCard(env.atob(req.card).value) == Some(doc)
  }

  lemma GateOpensExactly(env: Env, req: Request, key: string, now: nat)
    ensures MemberGate(env, req, now) == ByMember(key) <==>
              env.clubKey != "" && WellSigned(env, req, req.memberSig, key, now)
              && exists doc, card :: CarriesCard(env, req, doc) && IsClubCard(env, doc, card, key)
    ensures MemberGate(env, req, now) == Open <==> env.clubKey == ""
  {
    hide CheckHeaders, WellSigned, IsClubCard, VerifyCard, IsBase64Text, Shaped;
    GateMeansClubCard(env, req, key, now);
    GenuineExactly(env, req, req.memberSig, key, now);
    ShapedExactly(req.card);
    if Shaped(req.card) { ShapedNotEmpty(req.card); }
    if MemberGate(env, req, now) == ByMember(key) {
      var card :| Admitted(env, req, key, now, card);
      var raw, doc :| B64ToBytes(env, req.card) == Some(raw) && env.parseCard(raw) == Some(doc) && IsClubCard(env, doc, card, key);
      assert CarriesCard(env, req, doc);
    }
    if doc, card :| env.clubKey != "" && WellSigned(env, req, req.memberSig, key, now)
                    && CarriesCard(env, req, doc) && IsClubCard(env, doc, card, key) {
      assert Admitted(env, req, key, now, card);
    }
  }

  /** A submit signed so under the key on a club card in its header opens the gate for that key. */
  lemma ClientMemberAdmitted(
      env: Env, req: Request, doc: Json, card: Json, key: string, t: nat, random: Bytes, sig: Bytes, now: nat)
    requires env.clubKey != "" && CarriesCard(env, req, doc) && IsClubCard(env, doc, card, key)
    requires ClientSigned(env, req, req.memberSig, key, t, random, sig) && -300 <= now / 1000 - t <= 300
    ensures MemberGate(env, req, now) == ByMember(key)
  {
    hide WellSigned, ClientSigned, IsClubCard, MemberGate, CarriesCard;
    ClientIsWellSigned(env, req, req.memberSig, key, t, random, sig, now);
    GateOpensExactly(env, req, key, now);
  }

  // ---------------------------------------------------------------- what each request needs

  lemma RegistrationAcceptedExactly(env: Env, st: State, req: Request, checked: Checked<RegisterBody>, now: nat)
    ensures Register(env, st, req, checked, now).reply.Registered? <==>
              && checked.Fields?
              && var body := checked.value;
                 && NodeName(body.nodeId) && req.nodeId == body.nodeId && Key32(env, body.pubkey) && Key32(env, body.verifyKey)
                 && (body.nodeId, req.sig.nonce) !in st.nonces
                 && WellSigned(env, req, req.sig,
                      if body.nodeId in st.nodes then st.nodes[body.nodeId].verifyKey else body.verifyKey, now)
  {
    hide CheckSignature, WellSigned, IsNodeId, NodeName, IsKey32, Key32;
    if checked.Fields? {
      var body := checked.value;
      NamesExactly(body.nodeId);
      Key32Exactly(env, body.pubkey);
      Key32Exactly(env, body.verifyKey);
      SignatureAcceptedExactly(env, st, req,
        if body.nodeId in st.nodes then st.nodes[body.nodeId].verifyKey else body.verifyKey, now);
    }
  }

  lemma HeartbeatAcceptedExactly(env: Env, st: State, req: Request, checked: Checked<Beat>, now: nat)
    ensures Heartbeat(env, st, req, checked, now).reply.Beaten? <==>
              && checked.Fields?
              && var body := checked.value;
                 && NodeName(body.nodeId) && req.nodeId == body.nodeId && body.nodeId in st.nodes
                 && (body.nodeId, req.sig.nonce) !in st.nonces
                 && WellSigned(env, req, req.sig, st.nodes[body.nodeId].verifyKey, now)
                 && body.wattage != Some(None) && body.measured != Some(None)
  {
    hide CheckSignature, WellSigned, IsNodeId, NodeName;
    if checked.Fields? && checked.value.nodeId in st.nodes {
      NamesExactly(checked.value.nodeId);
      SignatureAcceptedExactly(env, st, req, st.nodes[checked.value.nodeId].verifyKey, now);
    }
  }

  lemma PullAnsweredExactly(env: Env, st: State, req: Request, node: string, now: nat)
    ensures Pull(env, st, req, node, now).reply.Pulled? <==>
              && NodeName(node) && req.nodeId == node && node in st.nodes && (node, req.sig.nonce) !in st.nonces
              && WellSigned(env, req, req.sig, st.nodes[node].verifyKey, now)
  {
    hide CheckSignature, WellSigned, IsNodeId, NodeName, PullLoop;
    NamesExactly(node);
    if node in st.nodes { SignatureAcceptedExactly(env, st, req, st.nodes[node].verifyKey, now); }
  }

  /** The result comes, properly signed, from a known node for a job of its own. */
  ghost predicate OwnResult(env: Env, st: State, req: Request, body: ResultBody, now: nat) {
    && NodeName(body.jobId) && NodeName(req.nodeId) && req.nodeId in st.nodes && (req.nodeId, req.sig.nonce) !in st.nonces
    && WellSigned(env, req, req.sig, st.nodes[req.nodeId].verifyKey, now)
    && body.jobId in st.jobs && st.jobs[body.jobId].toNode == req.nodeId
  }

  lemma ResultAcceptedExactly(env: Env, st: State, req: Request, body: ResultBody, now: nat)
    ensures var reply := Result(env, st, req, Fields(body), now).reply;
            && (reply == Accepted(false) <==> OwnResult(env, st, req, body, now) && st.jobs[body.jobId].status.Running?)
            && (reply == Accepted(true) <==> OwnResult(env, st, req, body, now) && st.jobs[body.jobId].status.Done?)
  {
    hide CheckSignature, WellSigned, IsNodeId, IsJobId, NodeName;
    NamesExactly(body.jobId);
    NamesExactly(req.nodeId);
    if req.nodeId in st.nodes {
      SignatureAcceptedExactly(env, st, req, st.nodes[req.nodeId].verifyKey, now);
      SignatureShape(env, st, req, st.nodes[req.nodeId].verifyKey, now);
    }
  }

  /** The submit gets past the gate: no club key, or a member whose pair is unspent. */
  predicate PastGate(st: State, gate: Gate, nonce: string) {
    match gate
    case Open => true
    case Denied => false
    case ByMember(key) => (key, nonce) !in st.memberNonces
  }

  /** The body is in order and its target is known. */
  ghost predicate Deliverable(st: State, body: SubmitBody) {
    && NodeName(body.toNode) && body.toNode in st.nodes
    && (body.idempotencyKey.Some? ==> RetryKey(body.idempotencyKey.value))
  }

  predicate Repeats(st: State, body: SubmitBody) {
    body.idempotencyKey.Some? && (body.toNode, body.idempotencyKey.value) in st.idem
  }

  /** The queueing step, once past the gate. */
  lemma QueuedExactly(st: State, body: SubmitBody, jobId: string, now: nat)
    ensures var reply := Enqueue(st, body, jobId, now).reply;
            var named := NodeName(body.toNode) && (body.idempotencyKey.Some? ==> RetryKey(body.idempotencyKey.value));
            var good := Deliverable(st, body);
            && (reply == Submitted(jobId, false) <==> good && !Repeats(st, body) && |Queue(st, body.toNode)| < 100)
            && (reply == Refused(429) <==> good && !Repeats(st, body) && |Queue(st, body.toNode)| >= 100)
            && (good && Repeats(st, body) ==> reply == Submitted(st.idem[(body.toNode, body.idempotencyKey.value)], true))
            && (reply == Refused(400) <==> !named)
            && (reply == Refused(404) <==> named && body.toNode !in st.nodes)
            && (!good ==> reply == Refused(400) || reply == Refused(404))
            && reply != Refused(403)
  {
    hide NodeName, RetryKey, IsNodeId, IsIdempotencyKey, Queue;
    NamesExactly(body.toNode);
    if body.idempotencyKey.Some? { NamesExactly(body.idempotencyKey.value); }
  }

  /** The gate leaves nodes, idempotency records and queues as they are. */
  lemma GatedSame(st: State, gate: Gate, nonce: string, now: nat, node: string)
    ensures var st1 := Gated(st, gate, nonce, now);
            st1.nodes == st.nodes && st1.idem == st.idem && Queue(st1, node) == Queue(st, node)
  {
  }

  lemma SubmitAcceptedExactly(st: State, gate: Gate, nonce: string, body: SubmitBody, jobId: string, now: nat)
    ensures var reply := SubmitThrough(st, gate, nonce, Fields(body), jobId, now).reply;
            var good := PastGate(st, gate, nonce) && Deliverable(st, body);
            && (reply == Submitted(jobId, false) <==> good && !Repeats(st, body) && |Queue(st, body.toNode)| < 100)
            && (reply == Refused(429) <==> good && !Repeats(st, body) && |Queue(st, body.toNode)| >= 100)
            && (good && Repeats(st, body) ==> reply == Submitted(st.idem[(body.toNode, body.idempotencyKey.value)], true))
            && (!good ==> reply.Refused?)
  {
    hide NodeName, RetryKey, Enqueue, Queue;
    GatedSame(st, gate, nonce, now, body.toNode);
    QueuedExactly(Gated(st, gate, nonce, now), body, jobId, now);
  }

  // ---------------------------------------------------------------- refusals

  /** Every other registration is refused: 400 for its names and keys, 401 for its signature; a known id rotates. */
  lemma RegistrationAnswersExactly(env: Env, st: State, req: Request, body: RegisterBody, now: nat)
    ensures var reply := Register(env, st, req, Fields(body), now).reply;
            var good := NodeName(body.nodeId) && req.nodeId == body.nodeId && Key32(env, body.pubkey) && Key32(env, body.verifyKey);
            && (reply == Refused(400) <==> !good)
            && (reply.Refused? && good ==> reply == Refused(401))
            && (reply.Registered? ==> (reply.rotated <==> body.nodeId in st.nodes))
  {
    hide CheckSignature, IsNodeId, NodeName, IsKey32, Key32;
    NamesExactly(body.nodeId);
    Key32Exactly(env, body.pubkey);
    Key32Exactly(env, body.verifyKey);
    SignatureAnswers(env, st, req, if body.nodeId in st.nodes then st.nodes[body.nodeId].verifyKey else body.verifyKey, now);
  }

  lemma SignatureAnswers(env: Env, st: State, req: Request, key: string, now: nat)
    ensures var (after, refusal) := CheckSignature(env, st, req, key, now);
            && (refusal.Some? ==> refusal == Some(401)) && after.jobs == st.jobs
  {
    hide CheckHeaders;
  }

  lemma HeartbeatAnswersExactly(env: Env, st: State, req: Request, body: Beat, now: nat)
    ensures var reply := Heartbeat(env, st, req, Fields(body), now).reply;
            var named := NodeName(body.nodeId) && req.nodeId == body.nodeId;
            var signed := named && body.nodeId in st.nodes && (body.nodeId, req.sig.nonce) !in st.nonces
                          && WellSigned(env, req, req.sig, st.nodes[body.nodeId].verifyKey, now);
            && (reply == Refused(404) <==> named && body.nodeId !in st.nodes)
            && (reply == Refused(401) <==> named && body.nodeId in st.nodes && !signed)
            && (reply == Refused(400) <==> !named || (signed && (body.wattage == Some(None) || body.measured == Some(None))))
  {
    hide CheckSignature, WellSigned, IsNodeId, NodeName;
    NamesExactly(body.nodeId);
    if body.nodeId in st.nodes {
      SignatureAcceptedExactly(env, st, req, st.nodes[body.nodeId].verifyKey, now);
      SignatureAnswers(env, st, req, st.nodes[body.nodeId].verifyKey, now);
    }
  }

  lemma PullRefusedExactly(env: Env, st: State, req: Request, node: string, now: nat)
    ensures var reply := Pull(env, st, req, node, now).reply;
            && (reply == Refused(400) <==> !NodeName(node))
            && (reply == Refused(403) <==> NodeName(node) && req.nodeId != node)
            && (reply == Refused(404) <==> NodeName(node) && req.nodeId == node && node !in st.nodes)
            && (reply == Refused(401) <==>
                  NodeName(node) && req.nodeId == node && node in st.nodes
                  && !((node, req.sig.nonce) !in st.nonces && WellSigned(env, req, req.sig, st.nodes[node].verifyKey, now)))
  {
    hide CheckSignature, WellSigned, IsNodeId, NodeName, PullLoop;
    NamesExactly(node);
    if node in st.nodes {
      SignatureAcceptedExactly(env, st, req, st.nodes[node].verifyKey, now);
      SignatureAnswers(env, st, req, st.nodes[node].verifyKey, now);
    }
  }

  lemma ResultRefusedExactly(env: Env, st: State, req: Request, body: ResultBody, now: nat)
    ensures var reply := Result(env, st, req, Fields(body), now).reply;
            var named := NodeName(body.jobId) && NodeName(req.nodeId);
            var signed := named && req.nodeId in st.nodes && (req.nodeId, req.sig.nonce) !in st.nonces
                          && WellSigned(env, req, req.sig, st.nodes[req.nodeId].verifyKey, now);
            && (reply == Refused(400) <==> !NodeName(body.jobId))
            && (reply == Refused(401) <==>
                  NodeName(body.jobId) && (!NodeName(req.nodeId) || (req.nodeId in st.nodes && !signed)))
            && (reply == Refused(404) <==> named && (req.nodeId !in st.nodes || (signed && body.jobId !in st.jobs)))
            && (reply == Refused(403) <==> signed && body.jobId in st.jobs && st.jobs[body.jobId].toNode != req.nodeId)
            && (reply == Refused(409) <==>
                  signed && body.jobId in st.jobs && st.jobs[body.jobId].toNode == req.nodeId
                  && (st.jobs[body.jobId].status.Queued? || st.jobs[body.jobId].status.Failed?))
  {
    hide CheckSignature, WellSigned, IsNodeId, IsJobId, NodeName;
    NamesExactly(body.jobId);
    NamesExactly(req.nodeId);
    if req.nodeId in st.nodes {
      SignatureAcceptedExactly(env, st, req, st.nodes[req.nodeId].verifyKey, now);
      SignatureAnswers(env, st, req, st.nodes[req.nodeId].verifyKey, now);
    }
  }

  lemma SubmitRefusedExactly(st: State, gate: Gate, nonce: string, body: SubmitBody, jobId: string, now: nat)
    ensures var reply := SubmitThrough(st, gate, nonce, Fields(body), jobId, now).reply;
            var named := NodeName(body.toNode) && (body.idempotencyKey.Some? ==> RetryKey(body.idempotencyKey.value));
            && (reply == Refused(403) <==> !PastGate(st, gate, nonce))
            && (reply == Refused(400) <==> PastGate(st, gate, nonce) && !named)
            && (reply == Refused(404) <==> PastGate(st, gate, nonce) && named && body.toNode !in st.nodes)
  {
    hide NodeName, RetryKey, Enqueue, Queue;
    GatedSame(st, gate, nonce, now, body.toNode);
    QueuedExactly(Gated(st, gate, nonce, now), body, jobId, now);
  }
}
