/** Python documents, their canonical bytes, and what the JavaScript coordinator does to them. */
module PyDocument {
  import opened Base
  import opened Ordering
  import opened JsonText
  import opened JsonValue

  /** A finite Python float: a whole number, or a fraction known by its shortest repr. */
  datatype PyFloat = Whole(n: int, repr: string) | Part(repr: string)

  datatype PyDoc =
    | PyNone
    | PyBool(b: bool)
    | PyInt(n: int)
    | PyFlt(f: PyFloat)
    | PyStr(s: string)
    | PyList(items: seq<PyDoc>)
    | PyTuple(items: seq<PyDoc>)
    | PyDict(entries: map<string, PyDoc>)

  // ---------------------------------------------------------------- the two number rewrites

  /** `_js_numbers`: whole floats become ints, tuples become lists. */
  function JsNumbers(d: PyDoc): PyDoc {
    match d
    case PyFlt(Whole(n, _)) => PyInt(n)
    case PyDict(entries) => PyDict(map k | k in entries :: JsNumbers(entries[k]))
    case PyList(items) => PyList(seq(|items|, i requires 0 <= i < |items| => JsNumbers(items[i])))
    case PyTuple(items) => PyList(seq(|items|, i requires 0 <= i < |items| => JsNumbers(items[i])))
    case _ => d
  }

  /** `js_round_trip`: the same for floats, dicts and lists; a tuple is returned as it is. */
  function JsRoundTrip(d: PyDoc): PyDoc {
    match d
    case PyFlt(Whole(n, _)) => PyInt(n)
    case PyDict(entries) => PyDict(map k | k in entries :: JsRoundTrip(entries[k]))
    case PyList(items) => PyList(seq(|items|, i requires 0 <= i < |items| => JsRoundTrip(items[i])))
    case _ => d
  }

  lemma {:induction false} NumbersAfterRoundTrip(d: PyDoc)
    ensures JsNumbers(JsRoundTrip(d)) == JsNumbers(d)
    decreases d
  {
    match d {
      case PyDict(entries) =>
        forall k | k in entries ensures JsNumbers(JsRoundTrip(entries[k])) == JsNumbers(entries[k]) {
          NumbersAfterRoundTrip(entries[k]);
        }
        assert JsNumbers(JsRoundTrip(d)).entries == JsNumbers(d).entries;
      case PyList(items) =>
        forall i | 0 <= i < |items| ensures JsNumbers(JsRoundTrip(items[i])) == JsNumbers(items[i]) {
          NumbersAfterRoundTrip(items[i]);
        }
        assert JsNumbers(JsRoundTrip(d)).items == JsNumbers(d).items;
      case _ =>
    }
  }

  // ---------------------------------------------------------------- text between the languages

  /** The UTF-16 code units of one character. */
  function UnitsOf(c: char): seq<Unit> {
    var n := c as int;
    if n < 0x1_0000 then [n] else [0xd800 + (n - 0x1_0000) / 0x400, 0xdc00 + (n - 0x1_0000) % 0x400]
  }

  function ToUnits(s: string): Name {
    if s == "" then [] else UnitsOf(s[0]) + ToUnits(s[1..])
  }

  predicate IsHigh(u: Unit) { 0xd800 <= u < 0xdc00 }

  predicate IsLow(u: Unit) { 0xdc00 <= u < 0xe000 }

  function Combine(high: int, low: int): char
    requires 0xd800 <= high < 0xdc00 && 0xdc00 <= low < 0xe000
  {
    (0x1_0000 + (high - 0xd800) * 0x400 + (low - 0xdc00)) as char
  }

  /** Decoding; a surrogate without its partner reads as U+FFFD. */
  function FromUnits(us: Name): string {
    if us == [] then ""
    else if |us| > 1 && IsHigh(us[0]) && IsLow(us[1]) then
      [Combine(us[0], us[1])] + FromUnits(us[2..])
    else if IsHigh(us[0]) || IsLow(us[0]) then ['\U{fffd}'] + FromUnits(us[1..])
    else [us[0] as char] + FromUnits(us[1..])
  }

  lemma {:induction false} UnitsRoundTrip(s: string)
    ensures FromUnits(ToUnits(s)) == s
    decreases |s|
  {
    if s != "" {
      UnitsRoundTrip(s[1..]);
      var (us, tail) := (ToUnits(s), ToUnits(s[1..]));
      var n := s[0] as int;
      if n < 0x1_0000 {
        assert us[0] == n && us[1..] == tail;
      } else {
        var m := n - 0x1_0000;
        assert us[0] == 0xd800 + m / 0x400 && us[1] == 0xdc00 + m % 0x400 && us[2..] == tail;
        assert m / 0x400 * 0x400 + m % 0x400 == m;
      }
      assert s == [s[0]] + s[1..];
    }
  }

  lemma UnitsInjective(s: string, t: string)
    requires ToUnits(s) == ToUnits(t)
    ensures s == t
  {
    UnitsRoundTrip(s);
    UnitsRoundTrip(t);
  }

  function UnitKeys(s: set<string>): set<Name> {
    set k | k in s :: ToUnits(k)
  }

  // ---------------------------------------------------------------- canonical bytes

  /** What `json.dumps` prints with sorted keys: Python compares keys by code point. */
  ghost function Dumped(d: PyDoc): Tree
    decreases d, 1
  {
    match d
    case PyNone => Null
    case PyBool(b) => Bool(b)
    case PyInt(n) => Int(n)
    case PyFlt(f) => Fraction(f.repr)
    case PyStr(s) => Text(ToUnits(s))
    case PyList(items) => Arr(DumpedItems(items))
    case PyTuple(items) => Arr(DumpedItems(items))
    case PyDict(entries) => Obj(DumpedMembers(d, SortedText(entries.Keys)))
  }

  ghost function DumpedItems(items: seq<PyDoc>): seq<Tree>
    decreases items, 2
  {
    if items == [] then [] else [Dumped(items[0])] + DumpedItems(items[1..])
  }

  ghost function DumpedMembers(d: PyDoc, keys: seq<string>): seq<Member>
    requires d.PyDict? && forall i :: 0 <= i < |keys| ==> keys[i] in d.entries
    decreases d, 0, |keys|
  {
    if keys == [] then []
    else [Member(ToUnits(keys[0]), Dumped(d.entries[keys[0]]))] + DumpedMembers(d, keys[1..])
  }

  /** `canonical_json`. */
  ghost function CanonicalPy(d: PyDoc): string {
    Print(Dumped(JsNumbers(d)))
  }

  /** A signed document keeps its canonical bytes after the mock's JavaScript round trip. */
  lemma RoundTripKeepsBytes(d: PyDoc)
    ensures CanonicalPy(JsRoundTrip(d)) == CanonicalPy(d)
  {
    NumbersAfterRoundTrip(d);
  }

  lemma {:induction false} DumpedItemsAt(items: seq<PyDoc>)
    ensures |DumpedItems(items)| == |items|
    ensures forall i :: 0 <= i < |items| ==> DumpedItems(items)[i] == Dumped(items[i])
    decreases |items|
  {
    if items != [] { DumpedItemsAt(items[1..]); }
  }

  lemma {:induction false} DumpedMembersAt(d: PyDoc, keys: seq<string>)
    requires d.PyDict? && forall i :: 0 <= i < |keys| ==> keys[i] in d.entries
    ensures |DumpedMembers(d, keys)| == |keys|
    ensures forall i :: 0 <= i < |keys| ==>
              DumpedMembers(d, keys)[i] == Member(ToUnits(keys[i]), Dumped(d.entries[keys[i]]))
    decreases |keys|
  {
    if keys != [] { DumpedMembersAt(d, keys[1..]); }
  }

  // ---------------------------------------------------------------- crossing into JavaScript and back

  /** `JSON.parse` of the document's JSON text. */
  function ToJs(d: PyDoc): Json {
    match d
    case PyNone => JsNull
    case PyBool(b) => JsBool(b)
    case PyInt(n) => JsNum(Integral(n))
    case PyFlt(Whole(n, _)) => JsNum(Integral(n))
    case PyFlt(Part(repr)) => JsNum(Inexact(repr))
    case PyStr(s) => JsText(ToUnits(s))
    case PyList(items) => JsArray(seq(|items|, i requires 0 <= i < |items| => ToJs(items[i])))
    case PyTuple(items) => JsArray(seq(|items|, i requires 0 <= i < |items| => ToJs(items[i])))
    case PyDict(entries) =>
      JsObject(map u | u in UnitKeys(entries.Keys) && FromUnits(u) in entries :: ToJs(entries[FromUnits(u)]))
  }

  /** `json.loads` of the JSON text JavaScript prints for a document. */
  function FromJs(v: Json): PyDoc {
    match v
    case JsNull => PyNone
    case JsBool(b) => PyBool(b)
    case JsNum(Integral(n)) => PyInt(n)
    case JsNum(Inexact(repr)) => PyFlt(Part(repr))
    case JsText(s) => PyStr(FromUnits(s))
    case JsArray(items) => PyList(seq(|items|, i requires 0 <= i < |items| => FromJs(items[i])))
    case JsObject(members) =>
      PyDict(map k | k in (set u | u in members :: FromUnits(u)) && ToUnits(k) in members :: FromJs(members[ToUnits(k)]))
  }

  /** A document JSON can carry exactly: no tuples, and every whole number safe in a double. */
  ghost predicate Portable(d: PyDoc) {
    match d
    case PyInt(n) => IsSafeInteger(Integral(n))
    case PyFlt(Whole(n, _)) => IsSafeInteger(Integral(n))
    case PyTuple(_) => false
    case PyList(items) => forall i :: 0 <= i < |items| ==> Portable(items[i])
    case PyDict(entries) => forall k :: k in entries ==> Portable(entries[k])
    case _ => true
  }

  lemma JsEntries(d: PyDoc)
    requires d.PyDict?
    ensures forall k :: k in d.entries ==>
              ToUnits(k) in ToJs(d).members && ToJs(d).members[ToUnits(k)] == ToJs(d.entries[k])
    ensures ToJs(d).members.Keys == UnitKeys(d.entries.Keys)
  {
    forall k | k in d.entries ensures FromUnits(ToUnits(k)) == k { UnitsRoundTrip(k); }
    assert ToJs(d).members.Keys == UnitKeys(d.entries.Keys);
  }

  lemma FromJsEntries(members: map<Name, Json>, keys: set<string>)
    requires members.Keys == UnitKeys(keys)
    ensures forall k :: k in keys ==> ToUnits(k) in members
    ensures var back := FromJs(JsObject(members)).entries;
            back.Keys == keys && forall k :: k in keys ==> back[k] == FromJs(members[ToUnits(k)])
  {
    var back := FromJs(JsObject(members)).entries;
    forall k | k in keys ensures ToUnits(k) in members && k in back {
      UnitsRoundTrip(k);
      assert ToUnits(k) in UnitKeys(keys);
    }
    forall k | k in back ensures k in keys {
      assert ToUnits(k) in UnitKeys(keys);
      var e :| e in keys && ToUnits(e) == ToUnits(k);
      UnitsInjective(e, k);
    }
  }

  lemma BackEntries(d: PyDoc) returns (back: map<string, PyDoc>)
    requires d.PyDict?
    ensures FromJs(ToJs(d)) == PyDict(back) && back.Keys == d.entries.Keys
    ensures forall k :: k in d.entries ==> back[k] == FromJs(ToJs(d.entries[k]))
  {
    JsEntries(d);
    FromJsEntries(ToJs(d).members, d.entries.Keys);
    back := FromJs(ToJs(d)).entries;
  }

  lemma RoundTripEntries(d: PyDoc, back: map<string, PyDoc>)
    requires d.PyDict? && back.Keys == d.entries.Keys
    requires forall k :: k in d.entries ==> back[k] == JsRoundTrip(d.entries[k])
    ensures PyDict(back) == JsRoundTrip(d)
  {
    assert back == JsRoundTrip(d).entries;
  }

  /** The deployed coordinator re-emits a portable document as `js_round_trip` predicts. */
  lemma {:induction false} CoordinatorRoundTrip(d: PyDoc)
    requires Portable(d)
    ensures FromJs(ToJs(d)) == JsRoundTrip(d)
    decreases d
  {
    match d {
      case PyStr(s) => UnitsRoundTrip(s);
      case PyList(items) =>
        forall i | 0 <= i < |items| ensures FromJs(ToJs(items[i])) == JsRoundTrip(items[i]) {
          CoordinatorRoundTrip(items[i]);
        }
        assert FromJs(ToJs(d)).items == JsRoundTrip(d).items;
      case PyDict(entries) =>
        var back := BackEntries(d);
        forall k | k in entries ensures back[k] == JsRoundTrip(entries[k]) { CoordinatorRoundTrip(entries[k]); }
        RoundTripEntries(d, back);
      case _ =>
    }
  }

  /** A receipt signed in Python verifies in Python after the coordinator stored and re-emitted it. */
  lemma SignedBytesSurvive(d: PyDoc)
    requires Portable(d)
    ensures CanonicalPy(FromJs(ToJs(d))) == CanonicalPy(d)
  {
    CoordinatorRoundTrip(d);
    RoundTripKeepsBytes(d);
  }

  // ---------------------------------------------------------------- one byte string in two languages

  function AllUnits(keys: seq<string>): seq<Name> {
    seq(|keys|, i requires 0 <= i < |keys| => ToUnits(keys[i]))
  }

  /** In every nested dict, code point order and code unit order of the keys coincide. */
  ghost predicate KeyOrdersAgree(d: PyDoc) {
    match d
    case PyList(items) => forall i :: 0 <= i < |items| ==> KeyOrdersAgree(items[i])
    case PyTuple(items) => forall i :: 0 <= i < |items| ==> KeyOrdersAgree(items[i])
    case PyDict(entries) =>
      && AllUnits(SortedText(entries.Keys)) == SortedNames(UnitKeys(entries.Keys))
      && forall k :: k in entries ==> KeyOrdersAgree(entries[k])
    case _ => true
  }

  lemma {:induction false} TreesAgree(d: PyDoc)
    requires AllSafe(ToJs(d))
    ensures Ordered(ToJs(d)).Some? && Printable(Dumped(JsNumbers(d)))
    ensures Ordered(ToJs(d)).value == Dumped(JsNumbers(d)) <==> KeyOrdersAgree(d)
    decreases d, 1
  {
    OrderedShape(ToJs(d));
    match d {
      case PyList(items) => ItemTreesAgree(d, items);
      case PyTuple(items) => ItemTreesAgree(d, items);
      case PyDict(_) => MemberTreesAgree(d);
      case _ =>
    }
  }

  lemma {:induction false} ItemTreesAgree(d: PyDoc, items: seq<PyDoc>)
    requires (d.PyList? || d.PyTuple?) && d.items == items && AllSafe(ToJs(d))
    ensures Ordered(ToJs(d)).Some? && Printable(Dumped(JsNumbers(d)))
    ensures Ordered(ToJs(d)).value == Dumped(JsNumbers(d)) <==> KeyOrdersAgree(d)
    decreases d, 0
  {
    OrderedShape(ToJs(d));
    var (js, py) := (ToJs(d).items, JsNumbers(d).items);
    OrderedItemsShape(js);
    DumpedItemsAt(py);
    forall i | 0 <= i < |items|
      ensures Printable(Dumped(py[i]))
      ensures Ordered(js[i]).value == Dumped(py[i]) <==> KeyOrdersAgree(items[i])
    {
      assert js[i] == ToJs(items[i]) && AllSafe(js[i]);
      TreesAgree(items[i]);
    }
    var (ts, us) := (OrderedItems(js).value, DumpedItems(py));
    assert ts == us <==> forall i :: 0 <= i < |items| ==> ts[i] == us[i];
  }

  lemma {:induction false} MemberTreesAgree(d: PyDoc)
    requires d.PyDict? && AllSafe(ToJs(d))
    ensures Ordered(ToJs(d)).Some? && Printable(Dumped(JsNumbers(d)))
    ensures Ordered(ToJs(d)).value == Dumped(JsNumbers(d)) <==> KeyOrdersAgree(d)
    decreases d, 0
  {
    EntriesSafe(d);
    hide Ordered, Dumped, KeyOrdersAgree, AllSafe, ToJs, JsNumbers;
    forall k | k in d.entries ensures EntryTrees(d, k) { TreesAgree(d.entries[k]); }
    var ms := JsMembers(d);
    var ps := PyMembers(d);
    MemberListsAgree(d, ms, ps);
  }

  lemma EntriesSafe(d: PyDoc)
    requires d.PyDict? && AllSafe(ToJs(d))
    ensures forall k :: k in d.entries ==> AllSafe(ToJs(d.entries[k]))
  {
    var members := ToJs(d).members;
    assert forall u :: u in members ==> AllSafe(members[u]);
    hide ToJs, AllSafe;
    JsEntries(d);
    forall k | k in d.entries ensures AllSafe(ToJs(d.entries[k])) {
      assert members[ToUnits(k)] == ToJs(d.entries[k]);
    }
  }

  /** The two trees of one dict entry. */
  ghost predicate EntryTrees(d: PyDoc, k: string)
    requires d.PyDict? && k in d.entries
  {
    && Ordered(ToJs(d.entries[k])).Some?
    && Printable(Dumped(JsNumbers(d.entries[k])))
    && (Ordered(ToJs(d.entries[k])).value == Dumped(JsNumbers(d.entries[k])) <==> KeyOrdersAgree(d.entries[k]))
  }

  /** The members the JavaScript encoder prints for a dict. */
  lemma JsMembers(d: PyDoc) returns (ms: seq<Member>)
    requires d.PyDict? && AllSafe(ToJs(d))
    ensures Ordered(ToJs(d)) == Some(Obj(ms)) && JsSide(d, ms)
  {
    JsEntries(d);
    OrderedShape(ToJs(d));
    ms := OrderedObject(ToJs(d));
  }

  lemma OrderedObject(v: Json) returns (ms: seq<Member>)
    requires v.JsObject? && Ordered(v).Some?
    ensures Ordered(v) == Some(Obj(ms))
    ensures var names := SortedNames(v.members.Keys);
            |ms| == |names| && forall i :: 0 <= i < |ms| ==>
              ms[i].key == names[i] && Ordered(v.members[names[i]]) == Some(ms[i].value)
  {
    var names := SortedNames(v.members.Keys);
    OrderedMembersShape(v, names);
    ms := OrderedMembers(v, names).value;
  }

  ghost predicate JsSide(d: PyDoc, ms: seq<Member>)
    requires d.PyDict?
  {
    var names := SortedNames(UnitKeys(d.entries.Keys));
    && |ms| == |names|
    && forall i :: 0 <= i < |ms| ==>
         ms[i].key == names[i] && names[i] in ToJs(d).members
         && Ordered(ToJs(d).members[names[i]]) == Some(ms[i].value)
  }

  ghost predicate PySide(d: PyDoc, ps: seq<Member>)
    requires d.PyDict?
  {
    var keys := SortedText(d.entries.Keys);
    && |ps| == |keys|
    && forall i :: 0 <= i < |ps| ==> ps[i] == Member(ToUnits(keys[i]), Dumped(JsNumbers(d.entries[keys[i]])))
  }

  /** The members the Python encoder prints for a dict. */
  lemma PyMembers(d: PyDoc) returns (ps: seq<Member>)
    requires d.PyDict?
    ensures Dumped(JsNumbers(d)) == Obj(ps)
    ensures PySide(d, ps)
  {
    var py := JsNumbers(d);
    assert py.entries.Keys == d.entries.Keys;
    var keys := SortedText(d.entries.Keys);
    DumpedMembersAt(py, keys);
    ps := DumpedMembers(py, keys);
  }

  /** Equal member lists are equal key lists over entries that agree one by one. */
  lemma MemberListsAgree(d: PyDoc, ms: seq<Member>, ps: seq<Member>)
    requires d.PyDict? && forall k :: k in d.entries ==> EntryTrees(d, k)
    requires JsSide(d, ms) && PySide(d, ps)
    ensures Printable(Obj(ps))
    ensures ms == ps <==> KeyOrdersAgree(d)
  {
    var keys := SortedText(d.entries.Keys);
    var agree := map k | k in d.entries :: KeyOrdersAgree(d.entries[k]);
    PairsAgree(d, ms, ps, keys, agree);
    ListsMatch(keys, SortedNames(UnitKeys(d.entries.Keys)), ms, ps, agree);
    NestedAgree(d, keys, agree);
  }

  lemma PairsAgree(d: PyDoc, ms: seq<Member>, ps: seq<Member>, keys: seq<string>, agree: map<string, bool>)
    requires d.PyDict? && keys == SortedText(d.entries.Keys) && JsSide(d, ms) && PySide(d, ps)
    requires agree.Keys == d.entries.Keys && forall k :: k in agree ==> agree[k] == KeyOrdersAgree(d.entries[k])
    requires forall k :: k in d.entries ==> EntryTrees(d, k)
    ensures |ps| == |keys| && forall j :: 0 <= j < |ps| ==> ps[j].key == ToUnits(keys[j]) && Printable(ps[j].value)
    ensures forall i, j :: 0 <= i < |ms| && 0 <= j < |ps| && ms[i].key == ps[j].key ==>
              (ms[i].value == ps[j].value <==> agree[keys[j]])
  {
    hide Ordered, Dumped, JsNumbers, ToJs, KeyOrdersAgree, ToUnits, SortedText, SortedNames, UnitKeys, Printable;
    forall j | 0 <= j < |ps| ensures ps[j].key == ToUnits(keys[j]) && Printable(ps[j].value) {
      assert EntryTrees(d, keys[j]);
    }
    forall i, j | 0 <= i < |ms| && 0 <= j < |ps| && ms[i].key == ps[j].key
      ensures ms[i].value == ps[j].value <==> agree[keys[j]]
    {
      JsEntryAt(d, keys[j]);
      assert EntryTrees(d, keys[j]);
    }
  }

  lemma ListsMatch(keys: seq<string>, names: seq<Name>, ms: seq<Member>, ps: seq<Member>, agree: map<string, bool>)
    requires |ms| == |names| && |ps| == |keys| && forall j :: 0 <= j < |keys| ==> keys[j] in agree
    requires forall i :: 0 <= i < |ms| ==> ms[i].key == names[i]
    requires forall j :: 0 <= j < |ps| ==> ps[j].key == ToUnits(keys[j])
    requires forall i, j :: 0 <= i < |ms| && 0 <= j < |ps| && ms[i].key == ps[j].key ==>
               (ms[i].value == ps[j].value <==> agree[keys[j]])
    ensures ms == ps <==> AllUnits(keys) == names && forall j :: 0 <= j < |keys| ==> agree[keys[j]]
  {
    if ms == ps {
      assert AllUnits(keys) == names;
    }
    if AllUnits(keys) == names && forall j :: 0 <= j < |keys| ==> agree[keys[j]] {
      forall j | 0 <= j < |ps| ensures ms[j] == ps[j] { assert AllUnits(keys)[j] == names[j]; }
    }
  }

  lemma NestedAgree(d: PyDoc, keys: seq<string>, agree: map<string, bool>)
    requires d.PyDict? && keys == SortedText(d.entries.Keys)
    requires agree.Keys == d.entries.Keys && forall k :: k in agree ==> agree[k] == KeyOrdersAgree(d.entries[k])
    ensures KeyOrdersAgree(d) <==>
            AllUnits(keys) == SortedNames(UnitKeys(d.entries.Keys)) && forall j :: 0 <= j < |keys| ==> agree[keys[j]]
  {
    hide SortedText, SortedNames, UnitKeys, AllUnits;
    EveryKeyListed(d.entries.Keys);
    assert (forall k :: k in d.entries ==> KeyOrdersAgree(d.entries[k])) <==> forall j :: 0 <= j < |keys| ==> agree[keys[j]];
  }

  lemma JsEntryAt(d: PyDoc, k: string)
    requires d.PyDict? && k in d.entries
    ensures ToUnits(k) in ToJs(d).members && ToJs(d).members[ToUnits(k)] == ToJs(d.entries[k])
  {
    JsEntries(d);
  }

  lemma EveryKeyListed(s: set<string>)
    ensures forall k :: k in s ==> exists i :: 0 <= i < |SortedText(s)| && SortedText(s)[i] == k
  {
    SortedTextLists(s);
    forall k | k in s ensures exists i :: 0 <= i < |SortedText(s)| && SortedText(s)[i] == k {
      assert k in SortedText(s);
    }
  }

  /** Python and JavaScript sign the same bytes exactly when the numbers are safe and the key orders agree. */
  lemma SameBytes(d: PyDoc)
    ensures Canonical(ToJs(d)) == Some(CanonicalPy(d)) <==> AllSafe(ToJs(d)) && KeyOrdersAgree(d)
  {
    CanonicalDefined(ToJs(d));
    if AllSafe(ToJs(d)) {
      TreesAgree(d);
      OrderedShape(ToJs(d));
      if Canonical(ToJs(d)) == Some(CanonicalPy(d)) {
        PrintInjective(Ordered(ToJs(d)).value, Dumped(JsNumbers(d)));
      }
    }
  }

  // ---------------------------------------------------------------- what the round trip changes

  /** No whole float where the round trip looks: it does not look inside tuples. */
  ghost predicate NoWholeFloats(d: PyDoc) {
    match d
    case PyFlt(f) => !f.Whole?
    case PyList(items) => forall i :: 0 <= i < |items| ==> NoWholeFloats(items[i])
    case PyDict(entries) => forall k :: k in entries ==> NoWholeFloats(entries[k])
    case _ => true
  }

  /** A document comes back from the round trip as it was exactly when it holds no whole float. */
  lemma {:induction false} ReturnsUnchangedExactly(d: PyDoc)
    ensures JsRoundTrip(d) == d <==> NoWholeFloats(d)
    decreases d
  {
    match d {
      case PyList(items) =>
        forall i | 0 <= i < |items| ensures JsRoundTrip(items[i]) == items[i] <==> NoWholeFloats(items[i]) {
          ReturnsUnchangedExactly(items[i]);
        }
        var back := JsRoundTrip(d).items;
        assert back == items <==> forall i :: 0 <= i < |items| ==> back[i] == items[i];
      case PyDict(entries) =>
        forall k | k in entries ensures JsRoundTrip(entries[k]) == entries[k] <==> NoWholeFloats(entries[k]) {
          ReturnsUnchangedExactly(entries[k]);
        }
        var back := JsRoundTrip(d).entries;
        assert back == entries <==> forall k :: k in entries ==> back[k] == entries[k];
      case _ =>
    }
  }

  // ---------------------------------------------------------------- when key orders agree

  /** Every key, at any depth, lies in the basic plane; ASCII keys are a special case. */
  ghost predicate BasicPlaneKeys(d: PyDoc) {
    match d
    case PyList(items) => forall i :: 0 <= i < |items| ==> BasicPlaneKeys(items[i])
    case PyTuple(items) => forall i :: 0 <= i < |items| ==> BasicPlaneKeys(items[i])
    case PyDict(entries) =>
      && (forall k, i :: k in entries && 0 <= i < |k| ==> k[i] as int < 0x1_0000)
      && forall k :: k in entries ==> BasicPlaneKeys(entries[k])
    case _ => true
  }

  lemma {:induction false} BasicUnits(s: string)
    requires forall i :: 0 <= i < |s| ==> s[i] as int < 0x1_0000
    ensures ToUnits(s) == Codes(s)
    decreases |s|
  {
    if s != "" {
      BasicUnits(s[1..]);
      assert Codes(s) == [s[0] as int] + Codes(s[1..]);
    }
  }

  lemma {:induction false} BasicPlaneAgrees(d: PyDoc)
    requires BasicPlaneKeys(d)
    ensures KeyOrdersAgree(d)
    decreases d
  {
    match d {
      case PyList(items) => forall i | 0 <= i < |items| ensures KeyOrdersAgree(items[i]) { BasicPlaneAgrees(items[i]); }
      case PyTuple(items) => forall i | 0 <= i < |items| ensures KeyOrdersAgree(items[i]) { BasicPlaneAgrees(items[i]); }
      case PyDict(entries) =>
        BasicKeysSortAlike(entries.Keys);
        forall k | k in entries ensures KeyOrdersAgree(entries[k]) { BasicPlaneAgrees(entries[k]); }
      case _ =>
    }
  }

  lemma BasicKeysSortAlike(s: set<string>)
    requires forall k, i :: k in s && 0 <= i < |k| ==> k[i] as int < 0x1_0000
    ensures AllUnits(SortedText(s)) == SortedNames(UnitKeys(s))
  {
    BasicUnitsSorted(s);
    UnitsListKeys(s);
    SortedNamesList(UnitKeys(s));
    ListingUnique(AllUnits(SortedText(s)), SortedNames(UnitKeys(s)), UnitKeys(s), UnitsLess);
  }

  lemma UnitsListKeys(s: set<string>)
    ensures forall u :: u in UnitKeys(s) <==> u in AllUnits(SortedText(s))
  {
    var units := AllUnits(SortedText(s));
    EveryKeyListed(s);
    forall u | u in UnitKeys(s) ensures u in units {
      var k :| k in s && ToUnits(k) == u;
      var i :| 0 <= i < |SortedText(s)| && SortedText(s)[i] == k;
      assert units[i] == u;
    }
    forall u | u in units ensures u in UnitKeys(s) {
      var i :| 0 <= i < |units| && units[i] == u;
      assert SortedText(s)[i] in s;
    }
  }

  lemma BasicUnitsSorted(s: set<string>)
    requires forall k, i :: k in s && 0 <= i < |k| ==> k[i] as int < 0x1_0000
    ensures Sorted(AllUnits(SortedText(s)), UnitsLess)
  {
    var keys := SortedText(s);
    SortedTextLists(s);
    forall i, j | 0 <= i < j < |keys| ensures UnitsLess(AllUnits(keys)[i], AllUnits(keys)[j]) {
      BasicUnits(keys[i]);
      BasicUnits(keys[j]);
      assert TextLess(keys[i], keys[j]);
    }
  }

  /** A dict with one key above the surrogates and one beyond the basic plane. */
  function AstralKeys(): PyDoc {
    PyDict(map["\U{e000}" := PyNone, "\U{10000}" := PyNone])
  }

  /** The two encoders disagree on a document outside the basic plane. */
  lemma AstralKeysDiffer()
    ensures AllSafe(ToJs(AstralKeys())) && Canonical(ToJs(AstralKeys())) != Some(CanonicalPy(AstralKeys()))
  {
    var d := AstralKeys();
    NullsAreSafe(d);
    AstralOrdersDiffer();
    SameBytes(d);
  }

  lemma NullsAreSafe(d: PyDoc)
    requires d.PyDict? && forall k :: k in d.entries ==> d.entries[k] == PyNone
    ensures AllSafe(ToJs(d))
  {
    JsEntries(d);
    forall u | u in ToJs(d).members ensures ToJs(d).members[u] == JsNull {
      var k :| k in d.entries && ToUnits(k) == u;
    }
  }

  lemma AstralOrdersDiffer()
    ensures !KeyOrdersAgree(AstralKeys())
  {
    var (a, b) := ("\U{e000}", "\U{10000}");
    AstralUnits();
    assert Codes(a)[0] < Codes(b)[0] && TextLess(a, b);
    assert UnitsLess(ToUnits(b), ToUnits(a));
    FirstOfTwo(a, b);
    FirstNameOfTwo(ToUnits(b), ToUnits(a));
    assert AstralKeys().entries.Keys == {a, b};
    assert UnitKeys({a, b}) == {ToUnits(b), ToUnits(a)};
    assert AllUnits(SortedText({a, b}))[0] == ToUnits(a);
  }

  lemma AstralUnits()
    ensures ToUnits("\U{e000}") == [0xe000] && ToUnits("\U{10000}") == [0xd800, 0xdc00]
  {
    assert "\U{e000}"[1..] == "" && "\U{10000}"[1..] == "";
  }

  lemma FirstOfTwo(a: string, b: string)
    requires TextLess(a, b)
    ensures |SortedText({a, b})| > 0 && SortedText({a, b})[0] == a
  {
    SortedTextLists({a, b});
    assert a in {a, b};
    FirstIsLeast(SortedText({a, b}), {a, b}, TextLess, a);
  }

  lemma FirstNameOfTwo(a: Name, b: Name)
    requires UnitsLess(a, b)
    ensures |SortedNames({a, b})| > 0 && SortedNames({a, b})[0] == a
  {
    SortedNamesList({a, b});
    assert a in {a, b};
    FirstIsLeast(SortedNames({a, b}), {a, b}, UnitsLess, a);
  }
}
