/** A verified receipt is one the node's key holder signed, about this job and these very bytes. */
module Receipts {
  import opened Base
  import opened Ordering
  import opened JsonText
  import opened JsonValue
  import opened PyDocument
  import opened Signing
  import opened Handlers
  import opened Party
  import Paging
  import Store

  // ---------------------------------------------------------------- canonical bytes decide the document

  /** Every float that is not whole has the text of a JSON number that is not an integer. */
  ghost predicate ProperFloats(d: PyDoc) {
    match d
    case PyFlt(Part(repr)) => IsFractionText(repr)
    case PyList(items) => forall i :: 0 <= i < |items| ==> ProperFloats(items[i])
    case PyTuple(items) => forall i :: 0 <= i < |items| ==> ProperFloats(items[i])
    case PyDict(entries) => forall k :: k in entries ==> ProperFloats(entries[k])
    case _ => true
  }

  /** What `_js_numbers` leaves: no whole floats and no tuples. */
  ghost predicate Collapsed(d: PyDoc) {
    match d
    case PyFlt(f) => f.Part? && IsFractionText(f.repr)
    case PyList(items) => forall i :: 0 <= i < |items| ==> Collapsed(items[i])
    case PyTuple(_) => false
    case PyDict(entries) => forall k :: k in entries ==> Collapsed(entries[k])
    case _ => true
  }

  lemma {:induction false} NumbersCollapse(d: PyDoc)
    requires ProperFloats(d)
    ensures Collapsed(JsNumbers(d))
    decreases d
  {
    match d {
      case PyList(items) => forall i | 0 <= i < |items| ensures Collapsed(JsNumbers(items[i])) { NumbersCollapse(items[i]); }
      case PyTuple(items) => forall i | 0 <= i < |items| ensures Collapsed(JsNumbers(items[i])) { NumbersCollapse(items[i]); }
      case PyDict(entries) => forall k | k in entries ensures Collapsed(JsNumbers(entries[k])) { NumbersCollapse(entries[k]); }
      case _ =>
    }
  }

  /** The members a dict is printed as. */
  lemma DictMembers(d: PyDoc) returns (keys: seq<string>, ms: seq<Member>)
    requires d.PyDict?
    ensures keys == SortedText(d.entries.Keys) && |ms| == |keys| && Dumped(d) == Obj(ms)
    ensures forall i :: 0 <= i < |keys| ==> keys[i] in d.entries && ms[i] == Member(ToUnits(keys[i]), Dumped(d.entries[keys[i]]))
  {
    keys := SortedText(d.entries.Keys);
    DumpedMembersAt(d, keys);
    ms := DumpedMembers(d, keys);
  }

  lemma ListItems(d: PyDoc) returns (ts: seq<Tree>)
    requires d.PyList?
    ensures Dumped(d) == Arr(ts) && |ts| == |d.items| && forall i :: 0 <= i < |ts| ==> ts[i] == Dumped(d.items[i])
  {
    DumpedItemsAt(d.items);
    ts := DumpedItems(d.items);
  }

  lemma {:induction false} CollapsedPrintable(d: PyDoc)
    requires Collapsed(d)
    ensures Printable(Dumped(d))
    decreases d
  {
    hide SortedText, ToUnits;
    match d {
      case PyList(items) =>
        var ts := ListItems(d);
        forall i | 0 <= i < |items| ensures Printable(Dumped(items[i])) { CollapsedPrintable(items[i]); }
      case PyDict(entries) =>
        var keys, ms := DictMembers(d);
        forall i | 0 <= i < |keys| ensures Printable(ms[i].value) { CollapsedPrintable(entries[keys[i]]); }
      case _ =>
    }
  }

  lemma {:induction false} DumpedInjective(a: PyDoc, b: PyDoc)
    requires Collapsed(a) && Collapsed(b) && Dumped(a) == Dumped(b)
    ensures a == b
    decreases a
  {
    hide SortedText, ToUnits;
    match a {
      case PyStr(s) => UnitsInjective(s, b.s);
      case PyList(items) =>
        var ts := ListItems(a);
        var us := ListItems(b);
        forall i | 0 <= i < |items| ensures items[i] == b.items[i] {
          assert ts[i] == us[i];
          DumpedInjective(items[i], b.items[i]);
        }
        assert items == b.items;
      case PyDict(entries) =>
        var p, ms := DictMembers(a);
        var q, ns := DictMembers(b);
        forall i | 0 <= i < |p| ensures p[i] == q[i] && entries[p[i]] == b.entries[q[i]] {
          assert ms[i] == ns[i];
          UnitsInjective(p[i], q[i]);
          DumpedInjective(entries[p[i]], b.entries[q[i]]);
        }
        assert p == q;
        EveryKeyListed(entries.Keys);
        EveryKeyListed(b.entries.Keys);
        SameByKeys(entries, b.entries, p);
      case _ =>
    }
  }

  lemma SameByKeys(a: map<string, PyDoc>, b: map<string, PyDoc>, keys: seq<string>)
    requires forall i :: 0 <= i < |keys| ==> keys[i] in a && keys[i] in b && a[keys[i]] == b[keys[i]]
    requires forall k :: k in a.Keys ==> exists i :: 0 <= i < |keys| && keys[i] == k
    requires forall k :: k in b.Keys ==> exists i :: 0 <= i < |keys| && keys[i] == k
    ensures a == b
  {
    forall k ensures k in a <==> k in b {}
    forall k | k in a ensures a[k] == b[k] {
      assert k in a.Keys;
      var i :| 0 <= i < |keys| && keys[i] == k;
    }
  }

  /** Equal canonical bytes mean equal documents, up to the number rewrite the format makes. */
  lemma CanonicalPyInjective(a: PyDoc, b: PyDoc)
    requires ProperFloats(a) && ProperFloats(b) && CanonicalPy(a) == CanonicalPy(b)
    ensures JsNumbers(a) == JsNumbers(b)
  {
    hide Print, Dumped, JsNumbers, Collapsed, ProperFloats, Printable;
    var (x, y) := (JsNumbers(a), JsNumbers(b));
    NumbersCollapse(a);
    NumbersCollapse(b);
    CollapsedPrintable(x);
    CollapsedPrintable(y);
    PrintInjective(Dumped(x), Dumped(y));
    DumpedInjective(x, y);
  }

  // ---------------------------------------------------------------- receipts

  /** One receipt the node made: for which job, about which bytes. */
  datatype Made = Made(jobId: string, work: Work, request: Bytes, result: Bytes)

  function ReceiptMade(c: Crypto, k: NodeKeys, m: Made): PyDoc {
    ReceiptOf(c, k, m.jobId, m.work, m.request, m.result)
  }

  /** The bytes some request is signed over. */
  ghost predicate Request(msg: Bytes) {
    exists host, verb, path, timestamp, nonce, body :: msg == SignedMessage(host, verb, path, timestamp, nonce, body)
  }

  /** All this key ever verifies are requests and the canonical form of receipts its holder made. */
  ghost predicate SignsOnly(c: Crypto, k: NodeKeys, made: set<Made>) {
    && (forall m :: m in made ==> ProperFloats(PyFlt(m.work.watts)))
    && forall msg, sig :: c.verify(k.verifyKey, msg, sig) ==>
         Request(msg) || exists m :: m in made && msg == Utf8(CanonicalPy(ReceiptMade(c, k, m)))
  }

  /** No request's bytes are a receipt's: one opens with the protocol name, the other with a brace. */
  lemma ReceiptIsNoRequest(d: PyDoc)
    requires d.PyDict?
    ensures !Request(Utf8(CanonicalPy(d)))
  {
    var text := CanonicalPy(d);
    assert text[0] == '{' by { DictOpensWithBrace(d); }
    Utf8Append(['{'], text[1..]);
    assert text == ['{'] + text[1..] && Utf8(['{'])[0] == 123;
    forall host, verb, path, timestamp, nonce, body: Bytes
      ensures Utf8(text) != SignedMessage(host, verb, path, timestamp, nonce, body)
    {
      RequestOpens(host, verb, path, timestamp, nonce, body);
    }
  }

  lemma DictOpensWithBrace(d: PyDoc)
    requires d.PyDict?
    ensures CanonicalPy(d) != "" && CanonicalPy(d)[0] == '{'
  {
    assert JsNumbers(d).PyDict?;
  }

  lemma RequestOpens(host: string, verb: string, path: string, timestamp: string, nonce: string, body: Bytes)
    ensures var msg := SignedMessage(host, verb, path, timestamp, nonce, body); msg != [] && msg[0] == 110
  {
    var text := PROTOCOL_PREFIX + Head(host, verb, path, timestamp, nonce);
    assert text == ['n'] + text[1..] && Utf8(['n'])[0] == 110;
    Utf8Append(['n'], text[1..]);
  }

  ghost predicate Collisionless(c: Crypto) {
    forall x, y :: c.sha256(x) == c.sha256(y) ==> x == y
  }

  lemma ReceiptProper(c: Crypto, k: NodeKeys, m: Made)
    requires ProperFloats(PyFlt(m.work.watts))
    ensures ProperFloats(ReceiptMade(c, k, m))
  {
  }

  lemma TextKept(a: map<string, PyDoc>, b: map<string, PyDoc>, key: string)
    requires JsNumbers(PyDict(a)) == JsNumbers(PyDict(b)) && key in a && key in b && a[key].PyStr? && b[key].PyStr?
    ensures a[key] == b[key]
  {
    var (x, y) := (JsNumbers(PyDict(a)).entries, JsNumbers(PyDict(b)).entries);
    assert x[key] == y[key] && x[key] == a[key] && y[key] == b[key];
  }

  /** The receipt shown is one the holder made for this job about these bytes, numbers as JavaScript prints them. */
  ghost predicate IsMade(c: Crypto, k: NodeKeys, made: set<Made>, jobId: string, receipt: PyDoc, raw: Bytes) {
    exists m :: m in made && m.jobId == jobId && m.result == raw && JsNumbers(receipt) == JsNumbers(ReceiptMade(c, k, m))
  }

  /** The listing names this key for the node the receipt names. */
  ghost predicate ListsKey(listed: seq<Paging.View>, receipt: PyDoc, key: string) {
    && receipt.PyDict? && "node_id" in receipt.entries
    && FindView(listed, receipt.entries["node_id"]).Some?
    && FindView(listed, receipt.entries["node_id"]).value.verifyKey == key
  }

  /**
   * Soundness: a receipt the client verifies under a listed key is one that key's holder made, for this job,
   * about exactly the bytes the client opened. So an altered field, a swapped result, another job's receipt
   * or another signer's is never verified.
   */
  lemma VerifiedIsMade(
      c: Crypto, k: NodeKeys, made: set<Made>, listed: seq<Paging.View>, jobId: string, signed: map<string, PyDoc>, raw: Bytes)
    requires SignsOnly(c, k, made) && Collisionless(c)
    requires VerifyReceipt(c, listed, jobId, signed, raw) && ProperFloats(signed["receipt"])
    requires ListsKey(listed, signed["receipt"], k.verifyKey)
    ensures IsMade(c, k, made, jobId, signed["receipt"], raw)
  {
    hide CanonicalPy, JsNumbers, Utf8, FindView, ProperFloats, ReceiptOf, Request;
    var receipt := signed["receipt"];
    assert receipt == PyDict(receipt.entries);
    var msg := Utf8(CanonicalPy(receipt));
    assert c.verify(k.verifyKey, msg, c.b64d(signed["sig"].s).value);
    ReceiptIsNoRequest(receipt);
    var m :| m in made && msg == Utf8(CanonicalPy(ReceiptMade(c, k, m)));
    var own := ReceiptMade(c, k, m);
    Utf8Injective(CanonicalPy(receipt), CanonicalPy(own));
    ReceiptProper(c, k, m);
    CanonicalPyInjective(receipt, own);
    MadeFields(c, k, m);
    TextKept(receipt.entries, own.entries, "job_id");
    TextKept(receipt.entries, own.entries, "result_sha256");
  }

  lemma MadeFields(c: Crypto, k: NodeKeys, m: Made)
    ensures var own := ReceiptMade(c, k, m);
            && own.PyDict? && own == PyDict(own.entries)
            && "job_id" in own.entries && own.entries["job_id"] == PyStr(m.jobId)
            && "result_sha256" in own.entries && own.entries["result_sha256"] == PyStr(c.sha256(m.result))
  {
  }

  /** What the client reports as verified is made by the key listed for it; anything else it reports unverified. */
  lemma ReadingIsSound(
      c: Crypto, k: NodeKeys, made: set<Made>, keys: map<string, Pair>, jobId: string, view: StatusView, listed: seq<Paging.View>)
    requires SignsOnly(c, k, made) && Collisionless(c)
    requires var r := Read(c, keys, jobId, view, listed);
             r.Got? && r.receipt.Some? && ProperFloats(r.receipt.value) && ListsKey(listed, r.receipt.value, k.verifyKey)
    ensures var r := Read(c, keys, jobId, view, listed);
            r.verified ==>
              (view.Finally? && view.blob.Some? && c.b64d(view.blob.value).Some?
               && IsMade(c, k, made, jobId, r.receipt.value, c.b64d(view.blob.value).value))
  {
    hide VerifyReceipt, TextOf, FromJs, SignsOnly, ProperFloats, ListsKey, IsMade;
    var r := Read(c, keys, jobId, view, listed);
    if r.verified {
      var signed := FromJs(view.receipt.value).entries;
      VerifiedIsMade(c, k, made, listed, jobId, signed, c.b64d(view.blob.value).value);
    }
  }

  /** The client opens the blob of a done job with the reply key it holds for it. */
  ghost predicate Opens(c: Crypto, pair: Pair, view: StatusView, raw: Bytes, plain: Bytes) {
    && view.Finally? && view.blob.Some? && view.blob.value != ""
    && c.b64d(view.blob.value) == Some(raw) && c.unseal(pair.prv, pair.pub, raw) == Some(plain)
  }

  /**
   * When the client gets a text: exactly when it holds a reply key that opens the blob of a done job. The text is
   * the payload's `text`, the payload itself when it is a bare string, and the raw bytes when it is no JSON or has no text.
   */
  lemma ReadsExactly(c: Crypto, keys: map<string, Pair>, jobId: string, view: StatusView, listed: seq<Paging.View>)
    ensures var r := Read(c, keys, jobId, view, listed);
            && (r.Got? <==> jobId in keys && exists raw, plain :: Opens(c, keys[jobId], view, raw, plain))
            && (r == NoKey <==> jobId !in keys)
            && (r == NoBlob <==> jobId in keys && view.Finally? && (view.blob == None || view.blob == Some("")))
            && (r == GaveUp <==> jobId in keys && view == NotDone(Store.Failed))
            && (r == Waiting <==> jobId in keys && view.NotDone? && view != NotDone(Store.Failed))
    ensures forall raw, plain :: jobId in keys && Opens(c, keys[jobId], view, raw, plain) ==>
              var (text, payload) := (Read(c, keys, jobId, view, listed).text, c.loads(plain));
              && (payload == None ==> text == c.decode(plain))
              && (forall t :: payload == Some(PyStr(t)) ==> text == t)
              && (forall d: map<string, PyDoc> :: payload == Some(PyDict(d)) ==>
                    text == if "text" !in d then c.decode(plain) else if d["text"].PyStr? then d["text"].s else c.show(d["text"]))
  {
    hide VerifyReceipt, FromJs;
    if jobId in keys && view.Finally? && view.blob.Some? && c.b64d(view.blob.value).Some? {
      var raw := c.b64d(view.blob.value).value;
      var plain := c.unseal(keys[jobId].prv, keys[jobId].pub, raw);
      if plain.Some? && view.blob.value != "" { assert Opens(c, keys[jobId], view, raw, plain.value); }
    }
  }
}
