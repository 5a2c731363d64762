/** The two ends of a job: the client that seals it and reads the answer, the node that serves it. */
module Party {
  import opened Base
  import opened JsonValue
  import opened Signing
  import opened PyDocument
  import opened Store
  import opened Handlers
  import Ordering
  import Paging

  /** The libraries both ends call, as functions; `eph` is the randomness of one sealed box. */
  datatype Crypto = Crypto(
    boxPair: (string, string) -> bool,
    seal: (string, Bytes, nat) -> Bytes,
    unseal: (string, string, Bytes) -> Option<Bytes>,
    signPair: (string, string) -> bool,
    sign: (string, Bytes) -> Bytes,
    verify: (string, Bytes, Bytes) -> bool,
    sha256: Bytes -> string,
    b64e: Bytes -> string,
    b64d: string -> Option<Bytes>,
    dumps: PyDoc -> Bytes,
    loads: Bytes -> Option<PyDoc>,
    decode: Bytes -> string,
    show: PyDoc -> string)

  /** A flat dict of strings, ints and floats, as job and result payloads are. */
  ghost predicate Flat(d: PyDoc) {
    d.PyDict? && forall k :: k in d.entries ==> d.entries[k].PyStr? || d.entries[k].PyInt? || d.entries[k].PyFlt?
  }

  /** What the end-to-end argument needs of them: each opening undoes its closing, and only for its own key. */
  ghost predicate Laws(c: Crypto) {
    && (forall pub, prv, data, eph :: c.boxPair(pub, prv) ==> c.unseal(prv, pub, c.seal(pub, data, eph)) == Some(data))
    && (forall pub, prv, other, data, eph ::
          c.boxPair(pub, prv) && other != pub ==> c.unseal(prv, pub, c.seal(other, data, eph)) == None)
    && (forall vk, sk, msg :: c.signPair(vk, sk) ==> c.verify(vk, msg, c.sign(sk, msg)))
    && (forall raw :: c.b64d(c.b64e(raw)) == Some(raw))
    && (forall raw :: raw != [] ==> c.b64e(raw) != "")
    && (forall pub, data, eph :: c.seal(pub, data, eph) != [])
    && (forall d :: Flat(d) ==> c.loads(c.dumps(d)) == Some(d))
  }

  // ---------------------------------------------------------------- the client asks

  datatype Pair = Pair(pub: string, prv: string)

  /** One call of `submit`: what is asked, under which idempotency key, and the keypair drawn for the reply. */
  datatype Order = Order(
    prompt: string, maxTokens: int, temperature: PyFloat, idempotencyKey: Option<string>, pair: Pair, eph: nat)

  function Payload(o: Order): PyDoc {
    PyDict(map["prompt" := PyStr(o.prompt), "max_tokens" := PyInt(o.maxTokens), "temperature" := PyFlt(o.temperature)])
  }

  function JobBlob(c: Crypto, nodePub: string, o: Order): string {
    c.b64e(c.seal(nodePub, c.dumps(Payload(o)), o.eph))
  }

  function BodyOf(c: Crypto, node: string, nodePub: string, o: Order): SubmitBody {
    SubmitBody(node, JobBlob(c, nodePub, o), o.pair.pub, o.idempotencyKey)
  }

  /** `_reply_keys.setdefault(job_id, pair)`. */
  function SetDefault(keys: map<string, Pair>, id: string, pair: Pair): map<string, Pair> {
    if id in keys then keys else keys[id := pair]
  }

  // ---------------------------------------------------------------- the node answers

  datatype NodeKeys = NodeKeys(id: string, boxPub: string, boxPrv: string, verifyKey: string, signKey: string)

  ghost predicate Keyed(c: Crypto, k: NodeKeys) {
    c.boxPair(k.boxPub, k.boxPrv) && c.signPair(k.verifyKey, k.signKey)
  }

  /** The inference engine behind the node. */
  type Engine = (PyDoc, int, PyFloat) -> string

  const DEFAULT_MAX_TOKENS := 16

  /** `payload.get("max_tokens") or DEFAULT_MAX_TOKENS`: zero asks for the default. */
  function Tokens(n: int): int {
    if n == 0 then DEFAULT_MAX_TOKENS else n
  }

  /** `payload.get("temperature") or 0.0`: either zero is plain zero. */
  function Temperature(f: PyFloat): PyFloat {
    if f.Whole? && f.n == 0 then Whole(0, "0.0") else f
  }

  /** `_infer`; anything but a well-formed payload raises. */
  function Infer(engine: Engine, payload: PyDoc): Option<string> {
    if !payload.PyDict? then None
    else
      var prompt := if "prompt" in payload.entries then payload.entries["prompt"] else PyStr("");
      var tokens := if "max_tokens" in payload.entries then payload.entries["max_tokens"] else PyInt(0);
      var temperature := if "temperature" in payload.entries then payload.entries["temperature"] else PyFlt(Whole(0, "0.0"));
      if !tokens.PyInt? || !temperature.PyFlt? then None
      else Some(engine(prompt, Tokens(tokens.n), Temperature(temperature.f)))
  }

  /** What the node measured while serving one job, and the randomness of the result's box. */
  datatype Work = Work(started: string, finished: string, durationMs: nat, watts: PyFloat, wattsSource: string, eph: nat)

  /** Times and watts JSON carries exactly. */
  predicate Reportable(w: Work) {
    IsSafeInteger(Integral(w.durationMs)) && (w.watts.Whole? ==> IsSafeInteger(Integral(w.watts.n)))
  }

  function ReceiptOf(c: Crypto, k: NodeKeys, jobId: string, w: Work, request: Bytes, result: Bytes): PyDoc {
    PyDict(map[
      "job_id" := PyStr(jobId),
      "node_id" := PyStr(k.id),
      "started" := PyStr(w.started),
      "finished" := PyStr(w.finished),
      "duration_ms" := PyInt(w.durationMs),
      "watts" := PyFlt(w.watts),
      "watts_source" := PyStr(w.wattsSource),
      "request_sha256" := PyStr(c.sha256(request)),
      "result_sha256" := PyStr(c.sha256(result))])
  }

  /** `build_receipt`: the receipt and the node's signature over its canonical bytes. */
  ghost function SignedReceipt(c: Crypto, k: NodeKeys, jobId: string, w: Work, request: Bytes, result: Bytes): PyDoc {
    var receipt := ReceiptOf(c, k, jobId, w, request, result);
    PyDict(map["receipt" := receipt, "sig" := PyStr(c.b64e(c.sign(k.signKey, Utf8(CanonicalPy(receipt)))))])
  }

  function TextDoc(text: string): PyDoc {
    PyDict(map["text" := PyStr(text)])
  }

  /** The result a node posts for one envelope, or nothing when processing raises. */
  ghost function Process(c: Crypto, k: NodeKeys, engine: Engine, e: Envelope, w: Work): Option<ResultBody> {
    var request := c.b64d(e.blob);
    if request.None? then None
    else
      var plain := c.unseal(k.boxPrv, k.boxPub, request.value);
      if plain.None? then None
      else
        var payload := c.loads(plain.value);
        if payload.None? then None
        else
          var text := Infer(engine, payload.value);
          if text.None? then None
          else
            var sealed := c.seal(e.replyKey, c.dumps(TextDoc(text.value)), w.eph);
            Some(ResultBody(e.jobId, c.b64e(sealed),
                            Some(ToJs(SignedReceipt(c, k, e.jobId, w, request.value, sealed)))))
  }

  // ---------------------------------------------------------------- the client reads

  /** `_text_of`. */
  function TextOf(c: Crypto, plain: Bytes): string {
    match c.loads(plain)
    case None => c.decode(plain)
    case Some(PyDict(entries)) =>
      if "text" !in entries then c.decode(plain)
      else if entries["text"].PyStr? then entries["text"].s else c.show(entries["text"])
    case Some(PyStr(s)) => s
    case Some(_) => c.decode(plain)
  }

  /** The nodes a `nodes()` call with the default page size returns. */
  function Reported(nodes: map<string, Node>, now: nat): (v: seq<Paging.View>) {
    var ids := Ordering.SortedText(nodes.Keys);
    Paging.Views(nodes, ids[..Min(|ids|, Paging.Reach(NODES_PAGE_LIMIT))], now)
  }

  const NODES_PAGE_LIMIT := 50

  function FindView(listed: seq<Paging.View>, id: PyDoc): Option<Paging.View> {
    if listed == [] then None
    else if PyStr(listed[0].nodeId) == id then Some(listed[0])
    else FindView(listed[1..], id)
  }

  /** `_node_record` and the check `submit` makes on it: a listed node with a key and an id, or the call raises. */
  function Target(listed: seq<Paging.View>, id: string): Option<Paging.View> {
    match FindView(listed, PyStr(id))
    case Some(v) => if v.pubkey == "" || v.nodeId == "" then None else Some(v)
    case None => None
  }

  /** `verify_receipt` against a node listing; whatever would raise is false. */
  ghost predicate VerifyReceipt(c: Crypto, listed: seq<Paging.View>, jobId: string, signed: map<string, PyDoc>, raw: Bytes) {
    && "receipt" in signed && signed["receipt"].PyDict?
    && "sig" in signed && signed["sig"].PyStr? && c.b64d(signed["sig"].s).Some?
    && var receipt := signed["receipt"].entries;
       && "job_id" in receipt && receipt["job_id"] == PyStr(jobId)
       && "result_sha256" in receipt && receipt["result_sha256"] == PyStr(c.sha256(raw))
       && "node_id" in receipt
       && var node := FindView(listed, receipt["node_id"]);
          && node.Some?
          && c.verify(node.value.verifyKey, Utf8(CanonicalPy(PyDict(receipt))), c.b64d(signed["sig"].s).value)
  }

  datatype Reading = NoKey | Waiting | GaveUp | NoBlob | CannotOpen | Got(text: string, receipt: Option<PyDoc>, verified: bool)

  /** `result_with_receipt` on one status answer. */
  ghost function Read(c: Crypto, keys: map<string, Pair>, jobId: string, view: StatusView, listed: seq<Paging.View>): Reading {
    if jobId !in keys then NoKey
    else
      match view
      case NotDone(status) => if status.Failed? then GaveUp else Waiting
      case Finally(blob, receipt) =>
        if blob.None? || blob.value == "" then NoBlob
        else if c.b64d(blob.value).None? then CannotOpen
        else
          var raw := c.b64d(blob.value).value;
          var plain := c.unseal(keys[jobId].prv, keys[jobId].pub, raw);
          if plain.None? then CannotOpen
          else
            var text := TextOf(c, plain.value);
            if receipt.None? then Got(text, None, false)
            else
              match FromJs(receipt.value)
              case PyDict(signed) =>
                if "receipt" !in signed || !signed["receipt"].PyDict? then Got(text, None, false)
                else Got(text, Some(signed["receipt"]), VerifyReceipt(c, listed, jobId, signed, raw))
              case _ => Got(text, None, false)
  }

  // ---------------------------------------------------------------- the client object

  class GridClient {
    var replyKeys: map<string, Pair>

    constructor ()
      ensures replyKeys == map[]
    {
      replyKeys := map[];
    }

    /** The end of `submit`: the coordinator's answer, and the key kept under the job id it names. */
    method Remember(reply: Reply, pair: Pair) returns (jobId: Option<string>)
      modifies this
      ensures reply.Submitted? && reply.jobId != "" ==>
                jobId == Some(reply.jobId) && replyKeys == SetDefault(old(replyKeys), reply.jobId, pair)
      ensures !(reply.Submitted? && reply.jobId != "") ==> jobId == None && replyKeys == old(replyKeys)
      ensures forall id :: id in old(replyKeys) ==> id in replyKeys && replyKeys[id] == old(replyKeys)[id]
    {
      if !reply.Submitted? || reply.jobId == "" { return None; }
      if reply.jobId !in replyKeys { replyKeys := replyKeys[reply.jobId := pair]; }
      return Some(reply.jobId);
    }
  }
}
