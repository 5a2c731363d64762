/** The laws assumed of the cryptography and codecs can all hold at once. */
module PartyLaws {
  import opened Base
  import opened Ordering
  import opened JsonText
  import opened PyDocument
  import opened Signing
  import opened Party

  // ---------------------------------------------------------------- flat documents as bytes

  predicate IsLeaf(d: PyDoc) {
    d.PyStr? || d.PyInt? || d.PyFlt?
  }

  function Leaf(d: PyDoc): Tree
    requires IsLeaf(d)
  {
    match d
    case PyStr(s) => Arr([Int(0), Text(ToUnits(s))])
    case PyInt(n) => Arr([Int(1), Int(n)])
    case PyFlt(Whole(n, repr)) => Arr([Int(2), Int(n), Text(ToUnits(repr))])
    case PyFlt(Part(repr)) => Arr([Int(3), Text(ToUnits(repr))])
  }

  lemma LeafInjective(a: PyDoc, b: PyDoc)
    requires IsLeaf(a) && IsLeaf(b) && Leaf(a) == Leaf(b)
    ensures a == b
  {
    var (x, y) := (Leaf(a).items, Leaf(b).items);
    assert x[0] == y[0] && x[1] == y[1] && |x| == |y|;
    match a {
      case PyStr(s) => UnitsInjective(s, b.s);
      case PyInt(_) =>
      case PyFlt(Whole(_, repr)) =>
        assert x[2] == y[2];
        UnitsInjective(repr, b.f.repr);
      case PyFlt(Part(repr)) => UnitsInjective(repr, b.f.repr);
    }
  }

  function Entry(key: string, d: PyDoc): Tree
    requires IsLeaf(d)
  {
    Arr([Text(ToUnits(key)), Leaf(d)])
  }

  ghost function FlatTree(d: PyDoc): (t: Tree)
    requires Flat(d)
    ensures t.Arr? && |t.items| == |d.entries.Keys| == |SortedText(d.entries.Keys)|
    ensures forall i :: 0 <= i < |t.items| ==> t.items[i] == Entry(SortedText(d.entries.Keys)[i], d.entries[SortedText(d.entries.Keys)[i]])
  {
    var keys := SortedText(d.entries.Keys);
    Arr(seq(|keys|, i requires 0 <= i < |keys| => Entry(keys[i], d.entries[keys[i]])))
  }

  lemma FlatPrintable(d: PyDoc)
    requires Flat(d)
    ensures Printable(FlatTree(d))
  {
    hide Entry, Leaf;
    forall i | 0 <= i < |FlatTree(d).items| ensures Printable(FlatTree(d).items[i]) {
      var key := SortedText(d.entries.Keys)[i];
      EntryPrintable(key, d.entries[key]);
    }
  }

  lemma EntryPrintable(key: string, d: PyDoc)
    requires IsLeaf(d)
    ensures Printable(Entry(key, d))
  {
    assert forall i :: 0 <= i < |Leaf(d).items| ==> Printable(Leaf(d).items[i]);
  }

  lemma EntryInjective(k: string, a: PyDoc, l: string, b: PyDoc)
    requires IsLeaf(a) && IsLeaf(b) && Entry(k, a) == Entry(l, b)
    ensures k == l && a == b
  {
    var (x, y) := (Entry(k, a).items, Entry(l, b).items);
    assert x[0] == y[0] && x[1] == y[1];
    UnitsInjective(k, l);
    LeafInjective(a, b);
  }

  lemma FlatInjective(a: PyDoc, b: PyDoc)
    requires Flat(a) && Flat(b) && FlatTree(a) == FlatTree(b)
    ensures a == b
  {
    hide FlatTree, Entry, SortedText;
    var (p, q) := (SortedText(a.entries.Keys), SortedText(b.entries.Keys));
    forall i | 0 <= i < |p| ensures p[i] == q[i] && a.entries[p[i]] == b.entries[q[i]] { FlatAt(a, b, i); }
    assert p == q;
    KeysListed(a.entries.Keys);
    KeysListed(b.entries.Keys);
    SameEntries(a.entries, b.entries, p);
  }

  lemma FlatAt(a: PyDoc, b: PyDoc, i: nat)
    requires Flat(a) && Flat(b) && FlatTree(a) == FlatTree(b) && i < |a.entries.Keys|
    ensures i < |SortedText(a.entries.Keys)| == |SortedText(b.entries.Keys)|
    ensures var (k, l) := (SortedText(a.entries.Keys)[i], SortedText(b.entries.Keys)[i]);
            k == l && k in a.entries && l in b.entries && a.entries[k] == b.entries[l]
  {
    hide FlatTree, Entry, SortedText;
    var (k, l) := (SortedText(a.entries.Keys)[i], SortedText(b.entries.Keys)[i]);
    assert FlatTree(a).items[i] == FlatTree(b).items[i];
    EntryInjective(k, a.entries[k], l, b.entries[l]);
  }

  lemma KeysListed(s: set<string>)
    ensures forall k :: k in s <==> k in SortedText(s)
  {
    SortedTextLists(s);
  }

  lemma SameEntries(a: map<string, PyDoc>, b: map<string, PyDoc>, keys: seq<string>)
    requires (forall k :: k in a.Keys <==> k in keys) && (forall k :: k in b.Keys <==> k in keys)
    requires forall i :: 0 <= i < |keys| ==> a[keys[i]] == b[keys[i]]
    ensures a == b
  {
    assert forall k :: k in a <==> k in b;
  }

  ghost function Dumps(d: PyDoc): Bytes {
    if Flat(d) then Utf8(Print(FlatTree(d))) else []
  }

  lemma DumpsInjective(a: PyDoc, b: PyDoc)
    requires Flat(a) && Flat(b) && Dumps(a) == Dumps(b)
    ensures a == b
  {
    hide FlatTree, Utf8, Print;
    Utf8Injective(Print(FlatTree(a)), Print(FlatTree(b)));
    FlatPrintable(a);
    FlatPrintable(b);
    PrintInjective(FlatTree(a), FlatTree(b));
    FlatInjective(a, b);
  }

  ghost function Loads(b: Bytes): Option<PyDoc> {
    if exists d :: Flat(d) && Dumps(d) == b then
      var d :| Flat(d) && Dumps(d) == b;
      Some(d)
    else None
  }

  lemma LoadsDumps(d: PyDoc)
    requires Flat(d)
    ensures Loads(Dumps(d)) == Some(d)
  {
    hide Dumps, Flat;
    var e := Loads(Dumps(d)).value;
    DumpsInjective(d, e);
  }

  // ---------------------------------------------------------------- boxes and base64

  /** A box that names its owner: the owner's length in unary, the owner, the contents. */
  function Box(pub: string, data: Bytes): Bytes {
    seq(|Utf8(pub)|, _ => 1 as Byte) + [0] + Utf8(pub) + data
  }

  lemma BoxInjective(p: string, x: Bytes, q: string, y: Bytes)
    requires Box(p, x) == Box(q, y)
    ensures p == q && x == y
  {
    var (b, m, n) := (Box(p, x), |Utf8(p)|, |Utf8(q)|);
    assert b[m] == 0 && b[n] == 0;
    assert forall i :: 0 <= i < m ==> b[i] == 1;
    assert forall i :: 0 <= i < n ==> b[i] == 1;
    assert m == n;
    assert b[m + 1..][..m] == Utf8(p) && b[n + 1..][..n] == Utf8(q);
    Utf8Injective(p, q);
    assert b[m + 1..][m..] == x && b[n + 1..][n..] == y;
  }

  ghost function Open(prv: string, pub: string, blob: Bytes): Option<Bytes> {
    if exists data :: blob == Box(pub, data) then
      var data :| blob == Box(pub, data);
      Some(data)
    else None
  }

  lemma OpenBox(pub: string, prv: string, other: string, data: Bytes)
    ensures Open(prv, pub, Box(pub, data)) == Some(data)
    ensures other != pub ==> Open(prv, pub, Box(other, data)) == None
  {
    hide Box;
    BoxInjective(pub, Open(prv, pub, Box(pub, data)).value, pub, data);
    if other != pub && exists x :: Box(other, data) == Box(pub, x) {
      var x :| Box(other, data) == Box(pub, x);
      BoxInjective(other, data, pub, x);
    }
  }

  function AsText(raw: Bytes): (s: string)
    ensures |s| == |raw| && forall i :: 0 <= i < |raw| ==> s[i] == raw[i] as char
  {
    seq(|raw|, i requires 0 <= i < |raw| => raw[i] as char)
  }

  function AsBytes(s: string): Option<Bytes> {
    if forall i :: 0 <= i < |s| ==> s[i] as int < 256
    then Some(seq(|s|, i requires 0 <= i < |s| && s[i] as int < 256 => s[i] as int)) else None
  }

  lemma BytesBack(raw: Bytes)
    ensures AsBytes(AsText(raw)) == Some(raw)
  {
    var s := AsText(raw);
    assert forall i :: 0 <= i < |s| ==> s[i] as int < 256;
    assert AsBytes(s).value == raw;
  }

  /** Some libraries satisfy every law, and some node is keyed under them. */
  lemma LawsCanHold() returns (c: Crypto, k: NodeKeys)
    ensures Laws(c) && Keyed(c, k)
  {
    hide Dumps, Loads, Open, AsText, AsBytes, Flat;
    c := Crypto(
      (pub, prv) => pub == prv,
      (pub, data, eph) => Box(pub, data),
      (prv, pub, blob) => Open(prv, pub, blob),
      (vk, sk) => vk == sk,
      (sk, msg) => msg,
      (vk, msg, sig) => msg == sig,
      raw => "",
      raw => AsText(raw),
      s => AsBytes(s),
      d => Dumps(d),
      b => Loads(b),
      b => "",
      d => "");
    forall pub, prv, data, eph | c.boxPair(pub, prv) ensures c.unseal(prv, pub, c.seal(pub, data, eph)) == Some(data) {
      OpenBox(pub, prv, pub, data);
    }
    forall pub, prv, other, data, eph | c.boxPair(pub, prv) && other != pub
      ensures c.unseal(prv, pub, c.seal(other, data, eph)) == None
    {
      OpenBox(pub, prv, other, data);
    }
    forall raw ensures c.b64d(c.b64e(raw)) == Some(raw) { BytesBack(raw); }
    forall raw: Bytes | raw != [] ensures c.b64e(raw) != "" { assert |AsText(raw)| > 0; }
    forall pub, data, eph ensures c.seal(pub, data, eph) != [] { assert |Box(pub, data)| > 0; }
    forall d | Flat(d) ensures c.loads(c.dumps(d)) == Some(d) { LoadsDumps(d); }
    k := NodeKeys("n", "p", "p", "v", "v");
  }
}
