/** One job from a client to an honest node and back: what the client reads when the result is there. */
module EndToEnd {
  import opened Base
  import opened JsonValue
  import opened Signing
  import opened PyDocument
  import opened Store
  import opened Handlers
  import opened Party
  import Ordering
  import Paging

  // ---------------------------------------------------------------- one job, end to end

  /** The engine's output for an order; zero tokens asks for sixteen, and either zero temperature is plain zero. */
  function Output(engine: Engine, o: Order): string {
    engine(PyStr(o.prompt), if o.maxTokens == 0 then 16 else o.maxTokens,
           if o.temperature.Whole? && o.temperature.n == 0 then Whole(0, "0.0") else o.temperature)
  }

  function Sealed(c: Crypto, engine: Engine, o: Order, w: Work): Bytes {
    c.seal(o.pair.pub, c.dumps(TextDoc(Output(engine, o))), w.eph)
  }

  /** The job's stored result and receipt are the honest node's for this order. */
  ghost predicate Answered(
      c: Crypto, k: NodeKeys, engine: Engine, o: Order, jobId: string, blob: Option<string>, receipt: Option<Json>)
  {
    exists w: Work, request: Bytes :: AnsweredBy(c, k, engine, o, jobId, blob, receipt, w, request)
  }

  ghost predicate AnsweredBy(
      c: Crypto, k: NodeKeys, engine: Engine, o: Order, jobId: string, blob: Option<string>, receipt: Option<Json>,
      w: Work, request: Bytes)
  {
    && Reportable(w) && JobBlob(c, k.boxPub, o) == c.b64e(request)
    && blob == Some(c.b64e(Sealed(c, engine, o, w)))
    && receipt == Some(ToJs(SignedReceipt(c, k, jobId, w, request, Sealed(c, engine, o, w))))
  }

  predicate Carries(c: Crypto, k: NodeKeys, o: Order, blob: string, replyKey: string) {
    blob == JobBlob(c, k.boxPub, o) && replyKey == o.pair.pub
  }

  /** The node opens what the client sealed, runs the engine on it and seals the output to the reply key. */
  lemma NodeAnswers(c: Crypto, k: NodeKeys, engine: Engine, o: Order, e: Envelope, w: Work)
    requires Laws(c) && Keyed(c, k) && Carries(c, k, o, e.blob, e.replyKey) && Reportable(w)
    ensures var body := Process(c, k, engine, e, w);
            body.Some? && body.value.jobId == e.jobId
            && Answered(c, k, engine, o, e.jobId, Some(body.value.blob), body.value.receipt)
  {
    hide SignedReceipt, ToJs;
    var request := c.seal(k.boxPub, c.dumps(Payload(o)), o.eph);
    assert c.b64d(e.blob) == Some(request);
    assert c.unseal(k.boxPrv, k.boxPub, request) == Some(c.dumps(Payload(o)));
    assert Flat(Payload(o));
    assert c.loads(c.dumps(Payload(o))) == Some(Payload(o));
    PayloadInfers(engine, o);
    var body := Process(c, k, engine, e, w).value;
    assert AnsweredBy(c, k, engine, o, e.jobId, Some(body.blob), body.receipt, w, request);
  }

  lemma PayloadInfers(engine: Engine, o: Order)
    ensures Infer(engine, Payload(o)) == Some(Output(engine, o))
  {
  }

  /** What a payload leaves out is the empty prompt, sixteen tokens, and temperature zero. */
  lemma PayloadDefaults(engine: Engine, payload: map<string, PyDoc>)
    requires payload.Keys !! {"max_tokens", "temperature"}
    ensures Infer(engine, PyDict(payload))
            == Some(engine(if "prompt" in payload then payload["prompt"] else PyStr(""), 16, Whole(0, "0.0")))
  {
    assert "max_tokens" !in payload.Keys && "temperature" !in payload.Keys;
  }

  /** Signed receipts of reportable work survive the coordinator entry by entry. */
  lemma ReceiptReturns(c: Crypto, k: NodeKeys, jobId: string, w: Work, request: Bytes, result: Bytes)
      returns (signed: map<string, PyDoc>)
    requires Reportable(w)
    ensures FromJs(ToJs(SignedReceipt(c, k, jobId, w, request, result))) == PyDict(signed)
    ensures "receipt" in signed && signed["receipt"] == JsRoundTrip(ReceiptOf(c, k, jobId, w, request, result))
    ensures "sig" in signed
            && signed["sig"] == PyStr(c.b64e(c.sign(k.signKey, Utf8(CanonicalPy(ReceiptOf(c, k, jobId, w, request, result))))))
  {
    hide CanonicalPy, ToJs, FromJs, ReceiptOf;
    var receipt := ReceiptOf(c, k, jobId, w, request, result);
    var doc := SignedReceipt(c, k, jobId, w, request, result);
    ReceiptPortable(c, k, jobId, w, request, result);
    assert Portable(doc);
    CoordinatorRoundTrip(doc);
    signed := JsRoundTrip(doc).entries;
    assert doc.entries["receipt"] == receipt;
  }

  lemma ReceiptPortable(c: Crypto, k: NodeKeys, jobId: string, w: Work, request: Bytes, result: Bytes)
    requires Reportable(w)
    ensures Portable(ReceiptOf(c, k, jobId, w, request, result))
  {
  }

  lemma ReceiptFields(c: Crypto, k: NodeKeys, jobId: string, w: Work, request: Bytes, result: Bytes)
    ensures var back := JsRoundTrip(ReceiptOf(c, k, jobId, w, request, result));
            && back.PyDict?
            && "job_id" in back.entries && back.entries["job_id"] == PyStr(jobId)
            && "node_id" in back.entries && back.entries["node_id"] == PyStr(k.id)
            && "result_sha256" in back.entries && back.entries["result_sha256"] == PyStr(c.sha256(result))
  {
    var entries := ReceiptOf(c, k, jobId, w, request, result).entries;
    StringSurvives(entries, "job_id");
    StringSurvives(entries, "node_id");
    StringSurvives(entries, "result_sha256");
  }

  lemma StringSurvives(entries: map<string, PyDoc>, key: string)
    requires key in entries && entries[key].PyStr?
    ensures var back := JsRoundTrip(PyDict(entries)); back.PyDict? && key in back.entries && back.entries[key] == entries[key]
  {
  }

  /** What an honest receipt says, field by field, once JavaScript has printed its numbers. */
  ghost predicate States(c: Crypto, k: NodeKeys, receipt: PyDoc, jobId: string, w: Work, request: Bytes, result: Bytes) {
    && receipt.PyDict?
    && receipt.entries.Keys == {"job_id", "node_id", "started", "finished", "duration_ms", "watts", "watts_source",
                                "request_sha256", "result_sha256"}
    && receipt.entries["job_id"] == PyStr(jobId) && receipt.entries["node_id"] == PyStr(k.id)
    && receipt.entries["started"] == PyStr(w.started) && receipt.entries["finished"] == PyStr(w.finished)
    && receipt.entries["duration_ms"] == PyInt(w.durationMs)
    && receipt.entries["watts"] == (if w.watts.Whole? then PyInt(w.watts.n) else PyFlt(w.watts))
    && receipt.entries["watts_source"] == PyStr(w.wattsSource)
    && receipt.entries["request_sha256"] == PyStr(c.sha256(request))
    && receipt.entries["result_sha256"] == PyStr(c.sha256(result))
  }

  /** Strings and integers come back as they were, whole floats as integers. */
  lemma ScalarReturns(d: PyDoc)
    ensures d.PyStr? || d.PyInt? ==> JsRoundTrip(d) == d
    ensures d.PyFlt? ==> JsRoundTrip(d) == if d.f.Whole? then PyInt(d.f.n) else d
  {
  }

  lemma EntriesReturn(entries: map<string, PyDoc>)
    ensures var back := JsRoundTrip(PyDict(entries));
            && back.PyDict? && back.entries.Keys == entries.Keys
            && forall key :: key in entries ==> back.entries[key] == JsRoundTrip(entries[key])
  {
  }

  /** A receipt's fields, read off one group at a time. */
  lemma ReceiptTexts(c: Crypto, k: NodeKeys, jobId: string, w: Work, request: Bytes, result: Bytes)
    ensures var d := ReceiptOf(c, k, jobId, w, request, result);
            && d.PyDict?
            && d.entries.Keys == {"job_id", "node_id", "started", "finished", "duration_ms", "watts", "watts_source",
                                  "request_sha256", "result_sha256"}
            && d.entries["job_id"] == PyStr(jobId) && d.entries["node_id"] == PyStr(k.id)
            && d.entries["started"] == PyStr(w.started) && d.entries["finished"] == PyStr(w.finished)
  {
  }

  lemma ReceiptReadings(c: Crypto, k: NodeKeys, jobId: string, w: Work, request: Bytes, result: Bytes)
    ensures var entries := ReceiptOf(c, k, jobId, w, request, result).entries;
            && "duration_ms" in entries && entries["duration_ms"] == PyInt(w.durationMs)
            && "watts" in entries && entries["watts"] == PyFlt(w.watts)
            && "watts_source" in entries && entries["watts_source"] == PyStr(w.wattsSource)
  {
  }

  lemma ReceiptHashes(c: Crypto, k: NodeKeys, jobId: string, w: Work, request: Bytes, result: Bytes)
    ensures var entries := ReceiptOf(c, k, jobId, w, request, result).entries;
            && "request_sha256" in entries && entries["request_sha256"] == PyStr(c.sha256(request))
            && "result_sha256" in entries && entries["result_sha256"] == PyStr(c.sha256(result))
  {
  }

  lemma ReceiptStates(c: Crypto, k: NodeKeys, jobId: string, w: Work, request: Bytes, result: Bytes)
    ensures States(c, k, JsRoundTrip(ReceiptOf(c, k, jobId, w, request, result)), jobId, w, request, result)
  {
    hide JsRoundTrip, ReceiptOf;
    ReceiptTexts(c, k, jobId, w, request, result);
    ReceiptReadings(c, k, jobId, w, request, result);
    ReceiptHashes(c, k, jobId, w, request, result);
    var entries := ReceiptOf(c, k, jobId, w, request, result).entries;
    EntriesReturn(entries);
    forall key | key in entries
      ensures entries[key].PyStr? || entries[key].PyInt? ==> JsRoundTrip(entries[key]) == entries[key]
    {
      ScalarReturns(entries[key]);
    }
    ScalarReturns(PyFlt(w.watts));
  }

  /** The receipt the client is shown states the work, the job it was for and the two blobs. */
  ghost predicate StatesWork(c: Crypto, k: NodeKeys, engine: Engine, o: Order, receipt: PyDoc, jobId: string, blob: string) {
    exists w: Work, request: Bytes ::
      c.b64e(request) == JobBlob(c, k.boxPub, o) && blob == c.b64e(Sealed(c, engine, o, w))
      && States(c, k, receipt, jobId, w, request, Sealed(c, engine, o, w))
  }

  /** The client finds the node's verify key in a listing. */
  predicate Vouched(listed: seq<Paging.View>, k: NodeKeys) {
    FindView(listed, PyStr(k.id)).Some? && FindView(listed, PyStr(k.id)).value.verifyKey == k.verifyKey
  }

  /** An honest receipt verifies after the round trip as soon as the listing shows the node under its key. */
  lemma ReceiptVerifies(
      c: Crypto, k: NodeKeys, jobId: string, w: Work, request: Bytes, result: Bytes, signed: map<string, PyDoc>,
      listed: seq<Paging.View>)
    requires Laws(c) && Keyed(c, k)
    requires "receipt" in signed && signed["receipt"] == JsRoundTrip(ReceiptOf(c, k, jobId, w, request, result))
    requires "sig" in signed
             && signed["sig"] == PyStr(c.b64e(c.sign(k.signKey, Utf8(CanonicalPy(ReceiptOf(c, k, jobId, w, request, result))))))
    ensures signed["receipt"].PyDict?
    ensures Vouched(listed, k) ==> VerifyReceipt(c, listed, jobId, signed, result)
    ensures FindView(listed, PyStr(k.id)).None? ==> !VerifyReceipt(c, listed, jobId, signed, result)
  {
    hide CanonicalPy, JsRoundTrip, ReceiptOf, FindView, Utf8;
    var receipt := ReceiptOf(c, k, jobId, w, request, result);
    ReceiptFields(c, k, jobId, w, request, result);
    RoundTripKeepsBytes(receipt);
    var back := signed["receipt"];
    assert back == PyDict(back.entries);
    assert c.b64d(signed["sig"].s) == Some(c.sign(k.signKey, Utf8(CanonicalPy(receipt))));
  }

  /** With the right reply key the client reads the engine's output and a receipt that checks. */
  lemma ClientReads(
      c: Crypto, k: NodeKeys, engine: Engine, o: Order, keys: map<string, Pair>, jobId: string,
      blob: Option<string>, receipt: Option<Json>, listed: seq<Paging.View>)
    requires Laws(c) && Keyed(c, k) && c.boxPair(o.pair.pub, o.pair.prv)
    requires Answered(c, k, engine, o, jobId, blob, receipt) && jobId in keys && keys[jobId] == o.pair
    requires Vouched(listed, k) || FindView(listed, PyStr(k.id)).None?
    ensures var r := Read(c, keys, jobId, Finally(blob, receipt), listed);
            && r.Got? && r.text == Output(engine, o) && r.receipt.Some?
            && blob.Some? && StatesWork(c, k, engine, o, r.receipt.value, jobId, blob.value)
            && (r.verified <==> Vouched(listed, k))
  {
    hide States;
    hide VerifyReceipt, SignedReceipt, ReceiptOf, ToJs, FromJs, JsRoundTrip, FindView, Output, CanonicalPy;
    var w: Work, request: Bytes :| AnsweredBy(c, k, engine, o, jobId, blob, receipt, w, request);
    var raw := Sealed(c, engine, o, w);
    assert c.b64d(blob.value) == Some(raw) && blob.value != "";
    var plain := c.dumps(TextDoc(Output(engine, o)));
    assert c.unseal(o.pair.prv, o.pair.pub, raw) == Some(plain);
    assert Flat(TextDoc(Output(engine, o)));
    assert TextOf(c, plain) == Output(engine, o);
    var signed := ReceiptReturns(c, k, jobId, w, request, raw);
    ReceiptVerifies(c, k, jobId, w, request, raw, signed, listed);
    ReceiptStates(c, k, jobId, w, request, raw);
  }

  /** With another key than the one the job was created with, the client cannot open the result. */
  lemma WrongKeyReadsNothing(
      c: Crypto, k: NodeKeys, engine: Engine, o: Order, keys: map<string, Pair>, jobId: string,
      blob: Option<string>, receipt: Option<Json>, listed: seq<Paging.View>)
    requires Laws(c) && Answered(c, k, engine, o, jobId, blob, receipt)
    requires jobId in keys && keys[jobId].pub != o.pair.pub && c.boxPair(keys[jobId].pub, keys[jobId].prv)
    ensures Read(c, keys, jobId, Finally(blob, receipt), listed) == CannotOpen
  {
    hide SignedReceipt, ToJs;
    var w: Work, request: Bytes :| AnsweredBy(c, k, engine, o, jobId, blob, receipt, w, request);
    assert c.unseal(keys[jobId].prv, keys[jobId].pub, Sealed(c, engine, o, w)) == None;
  }

  // ---------------------------------------------------------------- what the listing shows

  /** The node is among the first five thousand by id. */
  ghost predicate Visible(nodes: map<string, Node>, id: string) {
    var ids := Ordering.SortedText(nodes.Keys);
    id in ids[..Min(|ids|, 5000)]
  }

  lemma {:induction false} FindInViews(nodes: map<string, Node>, ids: seq<string>, now: nat, id: string)
    requires Paging.Table(nodes) && forall i :: 0 <= i < |ids| ==> ids[i] in nodes
    ensures var found := FindView(Paging.Views(nodes, ids, now), PyStr(id));
            if id in ids
            then found.Some? && found.value.nodeId == id && found.value.pubkey == nodes[id].pubkey
                 && found.value.verifyKey == nodes[id].verifyKey
            else found.None?
    decreases |ids|
  {
    if ids != [] {
      FindInViews(nodes, ids[1..], now, id);
      assert Paging.Views(nodes, ids, now)[1..] == Paging.Views(nodes, ids[1..], now);
    }
  }

  /** The client can address the node exactly when the listing reaches it, and then under the key the node registered. */
  lemma ListingAddresses(nodes: map<string, Node>, now: nat, id: string)
    requires Paging.Table(nodes) && (id in nodes ==> nodes[id].pubkey != "")
    ensures var target := Target(Reported(nodes, now), id);
            if id in nodes && Visible(nodes, id)
            then target.Some? && target.value.nodeId == id && target.value.pubkey == nodes[id].pubkey
            else target.None?
  {
    var ids := Ordering.SortedText(nodes.Keys);
    FindInViews(nodes, ids[..Min(|ids|, 5000)], now, id);
  }

  lemma ListingVouches(nodes: map<string, Node>, now: nat, k: NodeKeys)
    requires Paging.Table(nodes) && k.id in nodes && nodes[k.id].verifyKey == k.verifyKey
    ensures Vouched(Reported(nodes, now), k) <==> Visible(nodes, k.id)
    ensures Vouched(Reported(nodes, now), k) || FindView(Reported(nodes, now), PyStr(k.id)).None?
  {
    var ids := Ordering.SortedText(nodes.Keys);
    FindInViews(nodes, ids[..Min(|ids|, 5000)], now, k.id);
  }
}
