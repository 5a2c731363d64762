/** What takes effect is what was signed: bodies and paths read from the signed message itself. */
module Intent {
  import opened Signing
  import opened Store
  import opened Handlers
  import opened Shapes
  import Authority

  const MAX_BODY_BYTES: nat := 2 * 1024 * 1024

  datatype Route = ToRegister | ToHeartbeat | ToSubmit | ToPull | ToResult | Elsewhere

  /** The router and the body readers, each a function of what travels in the request. */
  datatype Reader = Reader(
    route: (string, string) -> Route,
    register: Bytes -> Checked<RegisterBody>,
    heartbeat: Bytes -> Checked<Beat>,
    submit: Bytes -> Checked<SubmitBody>,
    result: Bytes -> Checked<ResultBody>,
    nodeQuery: string -> string)

  /** The call an event makes is the one its verb and path name, on the fields its body or path holds. */
  predicate ReadFrom(r: Reader, ev: Event) {
    ev.Handle? &&
    match ev.call
    case DoRegister(body) => r.route(ev.req.verb, ev.req.path) == ToRegister && body == r.register(ev.req.body)
    case DoHeartbeat(body) => r.route(ev.req.verb, ev.req.path) == ToHeartbeat && body == r.heartbeat(ev.req.body)
    case DoSubmit(oversize, body, _) =>
      r.route(ev.req.verb, ev.req.path) == ToSubmit && oversize == (|ev.req.body| > MAX_BODY_BYTES) && body == r.submit(ev.req.body)
    case DoPull(node) => r.route(ev.req.verb, ev.req.path) == ToPull && node == r.nodeQuery(ev.req.path)
    case DoResult(body) => r.route(ev.req.verb, ev.req.path) == ToResult && body == r.result(ev.req.body)
  }

  // ---------------------------------------------------------------- signed messages

  /** What a signer signs: the six parts of one message. */
  datatype Written = Written(host: string, verb: string, path: string, timestamp: string, nonce: string, body: Bytes)

  function Message(w: Written): Bytes {
    SignedMessage(w.host, w.verb, w.path, w.timestamp, w.nonce, w.body)
  }

  function WrittenIn(req: Request, h: SigHeaders): Written {
    Written(req.host, req.verb, req.path, h.timestamp, h.nonce, req.body)
  }

  predicate OneLine(w: Written) {
    NoNewline(w.host) && NoNewline(w.verb) && NoNewline(w.path) && NoNewline(w.timestamp) && NoNewline(w.nonce)
  }

  predicate OneLineRequest(req: Request) {
    NoNewline(req.host) && NoNewline(req.verb) && NoNewline(req.path)
  }

  /** Everything this key verifies is a message its holder wrote. */
  ghost predicate WroteAll(env: Env, key: string, wrote: set<Written>) {
    && (forall w :: w in wrote ==> OneLine(w))
    && forall msg, sig :: env.verify(key, msg, sig) ==> exists w :: w in wrote && msg == Message(w)
  }

  lemma HeadersAreOneLine(env: Env, req: Request, h: SigHeaders, key: string, now: nat)
    requires CheckHeaders(env, req, h, key, now) == Genuine
    ensures NoNewline(h.timestamp) && NoNewline(h.nonce)
  {
  }

  lemma WordsDecide(w: Written, v: Written)
    requires OneLine(w) && OneLine(v) && Message(w) == Message(v)
    ensures w == v
  {
    hide SignedMessage;
    SignedMessageInjective(w.host, w.verb, w.path, w.timestamp, w.nonce, w.body,
                           v.host, v.verb, v.path, v.timestamp, v.nonce, v.body);
  }

  /** A genuine request is, part for part, one the key's holder wrote. */
  lemma GenuineWasWritten(env: Env, req: Request, h: SigHeaders, key: string, now: nat, wrote: set<Written>)
    requires CheckHeaders(env, req, h, key, now) == Genuine && OneLineRequest(req) && WroteAll(env, key, wrote)
    ensures WrittenIn(req, h) in wrote
  {
    hide SignedMessage;
    HeadersAreOneLine(env, req, h, key, now);
    var v := WrittenIn(req, h);
    assert exists sig :: env.verify(key, Message(v), sig) by {
      assert env.verify(key, Message(v), B64ToBytes(env, h.signature).value);
    }
    var w :| w in wrote && Message(v) == Message(w);
    WordsDecide(v, w);
  }

  /** Two calls that do the same, but for the id a submit would draw. */
  predicate SameCall(a: Call, b: Call) {
    a == b || (a.DoSubmit? && b.DoSubmit? && a.oversize == b.oversize && a.submit == b.submit)
  }

  /** The signed bytes decide the call: requests signed over the same bytes do the same. */
  lemma SignedBytesDecideTheCall(r: Reader, a: Event, b: Event, ha: SigHeaders, hb: SigHeaders)
    requires ReadFrom(r, a) && ReadFrom(r, b)
    requires OneLine(WrittenIn(a.req, ha)) && OneLine(WrittenIn(b.req, hb))
    requires Message(WrittenIn(a.req, ha)) == Message(WrittenIn(b.req, hb))
    ensures SameCall(a.call, b.call)
  {
    hide Message, OneLine;
    WordsDecide(WrittenIn(a.req, ha), WrittenIn(b.req, hb));
  }

  // ---------------------------------------------------------------- effects

  /** A node's keys change only to those in a registration its current key's holder wrote. */
  lemma RotationWasWritten(env: Env, r: Reader, st: State, ev: Event, node: string, wrote: set<Written>)
    requires ReadFrom(r, ev) && OneLineRequest(ev.req) && node in st.nodes
    requires WroteAll(env, st.nodes[node].verifyKey, wrote)
    requires node in Step(env, st, ev).state.nodes
    requires !Authority.SameIdentity(Step(env, st, ev).state.nodes[node], st.nodes[node])
    ensures var now := Step(env, st, ev).state.nodes[node];
            exists w :: w in wrote && r.route(w.verb, w.path) == ToRegister && r.register(w.body).Fields?
              && var body := r.register(w.body).value;
                 body.nodeId == node && now.verifyKey == body.verifyKey && now.pubkey == body.pubkey
  {
    hide CheckHeaders, WroteAll;
    Authority.KeysMoveByOwner(env, st, ev, node);
    RegisterShape(env, st, ev.req, ev.call.register, ev.now);
    GenuineWasWritten(env, ev.req, ev.req.sig, st.nodes[node].verifyKey, ev.now, wrote);
    var w := WrittenIn(ev.req, ev.req.sig);
    assert w in wrote && r.register(w.body) == ev.call.register;
  }

  /** An accepted result puts on the job exactly the blob and receipt of a message the node's key holder wrote. */
  lemma ResultWasWritten(env: Env, r: Reader, st: State, ev: Event, wrote: set<Written>)
    requires ReadFrom(r, ev) && OneLineRequest(ev.req) && ev.call.DoResult? && ev.req.nodeId in st.nodes
    requires WroteAll(env, st.nodes[ev.req.nodeId].verifyKey, wrote)
    requires forall id :: id in st.jobs ==> st.jobs[id].jobId == id
    requires Step(env, st, ev).reply == Accepted(false)
    ensures var after := Step(env, st, ev).state.jobs;
            exists w :: w in wrote && r.route(w.verb, w.path) == ToResult && r.result(w.body).Fields?
              && var body := r.result(w.body).value;
                 body.jobId in st.jobs && after == st.jobs[body.jobId := Finished(st.jobs[body.jobId], body, ev.now)]
  {
    hide CheckHeaders, WroteAll, Result;
    ResultShape(env, st, ev.req, ev.call.result, ev.now);
    GenuineWasWritten(env, ev.req, ev.req.sig, st.nodes[ev.req.nodeId].verifyKey, ev.now, wrote);
    var w := WrittenIn(ev.req, ev.req.sig);
    assert w in wrote && r.result(w.body) == ev.call.result;
  }

  /** Behind a member gate a created job has exactly the target, blob and reply key the member wrote. */
  lemma SubmitWasWritten(env: Env, r: Reader, st: State, ev: Event, key: string, wrote: set<Written>)
    requires ReadFrom(r, ev) && OneLineRequest(ev.req) && ev.call.DoSubmit?
    requires MemberGate(env, ev.req, ev.now) == ByMember(key) && WroteAll(env, key, wrote)
    requires Step(env, st, ev).reply == Submitted(ev.call.jobId, false)
    ensures var after := Step(env, st, ev).state.jobs;
            exists w :: w in wrote && r.route(w.verb, w.path) == ToSubmit && r.submit(w.body).Fields?
              && after == st.jobs[ev.call.jobId := NewJob(r.submit(w.body).value, ev.call.jobId, ev.now)]
  {
    hide CheckHeaders, WroteAll, SubmitThrough;
    GateIsGenuine(env, ev.req, key, ev.now);
    SubmitShape(st, MemberGate(env, ev.req, ev.now), ev.req.memberSig.nonce, ev.call.submit, ev.call.jobId, ev.now);
    GenuineWasWritten(env, ev.req, ev.req.memberSig, key, ev.now, wrote);
    var w := WrittenIn(ev.req, ev.req.memberSig);
    assert w in wrote && r.submit(w.body) == ev.call.submit;
  }

  lemma GateIsGenuine(env: Env, req: Request, key: string, now: nat)
    requires MemberGate(env, req, now) == ByMember(key)
    ensures CheckHeaders(env, req, req.memberSig, key, now) == Genuine
  {
    hide CheckHeaders, VerifyCard;
  }

  /** An answered pull drains the queue named in the path the node's key holder wrote. */
  lemma PullWasWritten(env: Env, r: Reader, st: State, ev: Event, wrote: set<Written>)
    requires ReadFrom(r, ev) && OneLineRequest(ev.req) && ev.call.DoPull? && ev.call.nodeId in st.nodes
    requires WroteAll(env, st.nodes[ev.call.nodeId].verifyKey, wrote)
    requires Step(env, st, ev).reply.Pulled?
    ensures exists w :: w in wrote && r.route(w.verb, w.path) == ToPull && r.nodeQuery(w.path) == ev.call.nodeId
  {
    hide CheckHeaders, WroteAll, Pull;
    PullShape(env, st, ev.req, ev.call.nodeId, ev.now);
    GenuineWasWritten(env, ev.req, ev.req.sig, st.nodes[ev.call.nodeId].verifyKey, ev.now, wrote);
    var w := WrittenIn(ev.req, ev.req.sig);
    assert w in wrote && r.nodeQuery(w.path) == ev.call.nodeId;
  }
}
