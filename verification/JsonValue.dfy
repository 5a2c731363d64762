/** JavaScript documents and the coordinator's canonical encoder for them. */
module JsonValue {
  import opened Base
  import opened Ordering
  import opened JsonText
  import opened CanonicalText

  type Name = seq<Unit>

  /** A JavaScript number: an integral one, with both zeros as 0, or any other double. */
  datatype JsNumber = Integral(n: int) | Inexact(repr: string)

  datatype Json =
    | JsNull
    | JsBool(b: bool)
    | JsNum(num: JsNumber)
    | JsText(s: Name)
    | JsArray(items: seq<Json>)
    | JsObject(members: map<Name, Json>)

  const MAX_SAFE_INTEGER: int := 9_007_199_254_740_991

  predicate IsSafeInteger(num: JsNumber) {
    num.Integral? && -MAX_SAFE_INTEGER <= num.n <= MAX_SAFE_INTEGER
  }

  /** Every number in the document, at any depth, is a safe integer. */
  ghost predicate AllSafe(v: Json) {
    match v
    case JsNum(num) => IsSafeInteger(num)
    case JsArray(items) => forall i :: 0 <= i < |items| ==> AllSafe(items[i])
    case JsObject(members) => forall k :: k in members ==> AllSafe(members[k])
    case _ => true
  }

  predicate UnitsLess(a: Name, b: Name) {
    LexLess(a, b)
  }

  lemma UnitsTotal(s: set<Name>)
    ensures TotalOn(s, UnitsLess)
  {
    forall x | x in s ensures !UnitsLess(x, x) { LexIrreflexive(x); }
    forall x, y | x in s && y in s && x != y ensures UnitsLess(x, y) || UnitsLess(y, x) { LexConnected(x, y); }
    forall x, y, z | x in s && y in s && z in s && UnitsLess(x, y) && UnitsLess(y, z) ensures UnitsLess(x, z) {
      LexTransitive(x, y, z);
    }
  }

  /** `Object.keys(value).sort()`. */
  function SortedNames(s: set<Name>): (q: seq<Name>)
    ensures |q| == |s| && forall i :: 0 <= i < |q| ==> q[i] in s
  {
    UnitsTotal(s);
    var q := SortedSeq(s, UnitsLess);
    NamesFromSet(q, s);
    q
  }

  lemma NamesFromSet(q: seq<Name>, s: set<Name>)
    requires Lists(q, s, UnitsLess)
    ensures forall i :: 0 <= i < |q| ==> q[i] in s
  {
  }

  lemma SortedNamesList(s: set<Name>)
    ensures TotalOn(s, UnitsLess) && Lists(SortedNames(s), s, UnitsLess)
  {
    UnitsTotal(s);
  }

  // ---------------------------------------------------------------- the document that is printed

  /** The document with members in key order; nothing when a number is refused. */
  ghost function Ordered(v: Json): Option<Tree>
    decreases v, 1
  {
    match v
    case JsNull => Some(Null)
    case JsBool(b) => Some(Bool(b))
    case JsNum(num) => if IsSafeInteger(num) then Some(Int(num.n)) else None
    case JsText(s) => Some(Text(s))
    case JsArray(items) =>
      (match OrderedItems(items) case None => None case Some(ts) => Some(Arr(ts)))
    case JsObject(members) =>
      (match OrderedMembers(v, SortedNames(members.Keys)) case None => None case Some(ms) => Some(Obj(ms)))
  }

  ghost function OrderedItems(items: seq<Json>): Option<seq<Tree>>
    decreases items, 2
  {
    if items == [] then Some([])
    else
      match (Ordered(items[0]), OrderedItems(items[1..]))
      case (Some(t), Some(ts)) => Some([t] + ts)
      case _ => None
  }

  ghost function OrderedMembers(v: Json, names: seq<Name>): Option<seq<Member>>
    requires v.JsObject? && forall i :: 0 <= i < |names| ==> names[i] in v.members
    decreases v, 0, |names|
  {
    if names == [] then Some([])
    else
      match (Ordered(v.members[names[0]]), OrderedMembers(v, names[1..]))
      case (Some(t), Some(ms)) => Some([Member(names[0], t)] + ms)
      case _ => None
  }

  /** The canonical text of a document. */
  ghost function Canonical(v: Json): Option<string> {
    match Ordered(v)
    case None => None
    case Some(t) => Some(Print(t))
  }

  // ---------------------------------------------------------------- facts about the ordered document

  lemma {:induction false} OrderedShape(v: Json)
    ensures Ordered(v).Some? <==> AllSafe(v)
    ensures Ordered(v).Some? ==> Printable(Ordered(v).value)
    decreases v, 1
  {
    hide UnitsLess, OrderedItems, OrderedMembers;
    match v {
      case JsArray(items) =>
        OrderedItemsShape(items);
        ArrayShape(v);
      case JsObject(members) =>
        OrderedMembersShape(v, SortedNames(members.Keys));
        ObjectShape(v, SortedNames(members.Keys));
      case _ =>
    }
  }

  lemma ArrayShape(v: Json)
    requires v.JsArray?
    requires OrderedItems(v.items).Some? <==> forall i :: 0 <= i < |v.items| ==> AllSafe(v.items[i])
    requires OrderedItems(v.items).Some? ==> forall i :: 0 <= i < |OrderedItems(v.items).value| ==> Printable(OrderedItems(v.items).value[i])
    ensures Ordered(v).Some? <==> AllSafe(v)
    ensures Ordered(v).Some? ==> Printable(Ordered(v).value)
  {
    hide OrderedItems;
  }

  lemma ObjectShape(v: Json, names: seq<Name>)
    requires v.JsObject? && names == SortedNames(v.members.Keys)
    requires OrderedMembers(v, names).Some? <==> forall i :: 0 <= i < |names| ==> AllSafe(v.members[names[i]])
    requires OrderedMembers(v, names).Some? ==>
               forall i :: 0 <= i < |OrderedMembers(v, names).value| ==> Printable(OrderedMembers(v, names).value[i].value)
    ensures Ordered(v).Some? <==> AllSafe(v)
    ensures Ordered(v).Some? ==> Printable(Ordered(v).value)
  {
    hide OrderedMembers, UnitsLess, SortedNames;
    SortedNamesList(v.members.Keys);
    assert forall k :: k in v.members ==> k in names;
  }

  lemma {:induction false} OrderedItemsShape(items: seq<Json>)
    ensures OrderedItems(items).Some? <==> forall i :: 0 <= i < |items| ==> AllSafe(items[i])
    ensures OrderedItems(items).Some? ==>
              var ts := OrderedItems(items).value;
              |ts| == |items| && forall i :: 0 <= i < |ts| ==> Printable(ts[i]) && Ordered(items[i]) == Some(ts[i])
    decreases items, 1
  {
    if items != [] {
      OrderedShape(items[0]);
      OrderedItemsShape(items[1..]);
      assert items == [items[0]] + items[1..];
    }
  }

  lemma {:induction false} OrderedMembersShape(v: Json, names: seq<Name>)
    requires v.JsObject? && forall i :: 0 <= i < |names| ==> names[i] in v.members
    ensures OrderedMembers(v, names).Some? <==> forall i :: 0 <= i < |names| ==> AllSafe(v.members[names[i]])
    ensures OrderedMembers(v, names).Some? ==>
              var ms := OrderedMembers(v, names).value;
              |ms| == |names| && forall i :: 0 <= i < |ms| ==>
                ms[i].key == names[i] && Printable(ms[i].value) && Ordered(v.members[names[i]]) == Some(ms[i].value)
    decreases v, 0, |names|
  {
    if names != [] {
      OrderedShape(v.members[names[0]]);
      OrderedMembersShape(v, names[1..]);
      assert names == [names[0]] + names[1..];
    }
  }

  // ---------------------------------------------------------------- reading a document back

  /** The JavaScript value a parsed document stands for; a repeated key keeps its last value. */
  function Value(t: Tree): Json
    decreases t, 0
  {
    match t
    case Null => JsNull
    case Bool(b) => JsBool(b)
    case Int(n) => JsNum(Integral(n))
    case Fraction(repr) => JsNum(Inexact(repr))
    case Text(s) => JsText(s)
    case Arr(items) => JsArray(Values(items))
    case Obj(members) => JsObject(MemberMap(members))
  }

  function Values(items: seq<Tree>): seq<Json>
    decreases items, 1
  {
    if items == [] then [] else [Value(items[0])] + Values(items[1..])
  }

  function MemberMap(members: seq<Member>): map<Name, Json>
    decreases members, 1
  {
    if members == [] then map[]
    else
      var n := |members| - 1;
      MemberMap(members[..n])[members[n].key := Value(members[n].value)]
  }

  /** A parser for canonical text: a JSON document and nothing after it. */
  function Parse(s: string): Option<Json> {
    match ReadTree(s)
    case Bad => None
    case Good(t, rest) => if rest == "" then Some(Value(t)) else None
  }

  lemma {:induction false} ValuesAt(items: seq<Tree>)
    ensures |Values(items)| == |items| && forall i :: 0 <= i < |items| ==> Values(items)[i] == Value(items[i])
    decreases |items|
  {
    if items != [] { ValuesAt(items[1..]); }
  }

  predicate DistinctKeys(members: seq<Member>) {
    forall i, j :: 0 <= i < j < |members| ==> members[i].key != members[j].key
  }

  lemma {:induction false} MemberMapAt(members: seq<Member>)
    requires DistinctKeys(members)
    ensures forall k :: k in MemberMap(members) <==> exists i :: 0 <= i < |members| && members[i].key == k
    ensures forall i :: 0 <= i < |members| ==>
              members[i].key in MemberMap(members) && MemberMap(members)[members[i].key] == Value(members[i].value)
    decreases |members|
  {
    if members != [] {
      var n := |members| - 1;
      MemberMapAt(members[..n]);
      var front := members[..n];
      forall k | k in MemberMap(members) ensures exists i :: 0 <= i < |members| && members[i].key == k {
        if k != members[n].key {
          assert k in MemberMap(front);
          var i :| 0 <= i < |front| && front[i].key == k;
          assert members[i].key == k;
        } else {
          assert members[n].key == k;
        }
      }
      forall i | 0 <= i < |members|
        ensures members[i].key in MemberMap(members) && MemberMap(members)[members[i].key] == Value(members[i].value)
      {
        if i < n { assert front[i] == members[i]; }
      }
    }
  }

  lemma {:induction false} ValueOfOrdered(v: Json)
    requires Ordered(v).Some?
    ensures Value(Ordered(v).value) == v
    decreases v, 1
  {
    hide OrderedItems, OrderedMembers, Values, MemberMap, UnitsLess;
    match v {
      case JsArray(items) =>
        OrderedItemsShape(items);
        forall i | 0 <= i < |items| ensures Value(OrderedItems(items).value[i]) == items[i] { ValueOfOrdered(items[i]); }
        ValuesAre(items, OrderedItems(items).value);
      case JsObject(members) => ValueOfObject(v, SortedNames(members.Keys));
      case _ =>
    }
  }

  lemma ValuesAre(items: seq<Json>, ts: seq<Tree>)
    requires |ts| == |items| && forall i :: 0 <= i < |items| ==> Value(ts[i]) == items[i]
    ensures Values(ts) == items
  {
    hide Value;
    ValuesAt(ts);
  }

  lemma {:induction false} ValueOfObject(v: Json, names: seq<Name>)
    requires v.JsObject? && names == SortedNames(v.members.Keys) && OrderedMembers(v, names).Some?
    ensures MemberMap(OrderedMembers(v, names).value) == v.members
    decreases v, 0
  {
    OrderedMembersShape(v, names);
    var ms := OrderedMembers(v, names).value;
    NamesOnceEach(v.members.Keys, names);
    forall i | 0 <= i < |ms| ensures Value(ms[i].value) == v.members[names[i]] {
      ValueOfOrdered(v.members[names[i]]);
    }
    MembersAre(ms, names, v.members);
  }

  lemma NamesOnceEach(s: set<Name>, names: seq<Name>)
    requires names == SortedNames(s)
    ensures forall i, j :: 0 <= i < j < |names| ==> names[i] != names[j]
    ensures forall k :: k in s ==> exists i :: 0 <= i < |names| && names[i] == k
  {
    SortedNamesList(s);
    forall i, j | 0 <= i < j < |names| ensures names[i] != names[j] { ListedOnce(names, s, UnitsLess, i, j); }
    forall k | k in s ensures exists i :: 0 <= i < |names| && names[i] == k { assert k in names; }
  }

  lemma MembersAre(ms: seq<Member>, names: seq<Name>, m: map<Name, Json>)
    requires |ms| == |names| && forall i :: 0 <= i < |ms| ==> ms[i].key == names[i]
    requires forall i, j :: 0 <= i < j < |names| ==> names[i] != names[j]
    requires forall i :: 0 <= i < |ms| ==> names[i] in m && Value(ms[i].value) == m[names[i]]
    requires forall k :: k in m ==> exists i :: 0 <= i < |names| && names[i] == k
    ensures MemberMap(ms) == m
  {
    MemberMapAt(ms);
    forall k | k in m ensures k in MemberMap(ms) && MemberMap(ms)[k] == m[k] {
      var i :| 0 <= i < |names| && names[i] == k;
      assert ms[i].key == k;
    }
  }

  /** The parser inverts the encoder, so canonical bytes determine the document. */
  lemma ParseCanonical(v: Json)
    requires Canonical(v).Some?
    ensures Parse(Canonical(v).value) == Some(v)
  {
    OrderedShape(v);
    var t := Ordered(v).value;
    ReadPrint(t, "");
    assert Print(t) + "" == Print(t);
    ValueOfOrdered(v);
  }

  /** A document is refused exactly when a number in it, at any depth, is not a safe integer. */
  lemma CanonicalDefined(v: Json)
    ensures Canonical(v).Some? <==> AllSafe(v)
  {
    OrderedShape(v);
  }

  /** A signature over canonical bytes is a signature over one document. */
  lemma CanonicalInjective(v: Json, w: Json)
    requires Canonical(v).Some? && Canonical(v) == Canonical(w)
    ensures v == w
  {
    ParseCanonical(v);
    ParseCanonical(w);
  }

  // ---------------------------------------------------------------- the encoder itself

  lemma {:induction false} EscapeSnoc(s: Name, u: Unit)
    ensures Escape(s + [u]) == Escape(s) + EscapeUnit(u)
    decreases |s|
  {
    if s == [] {
      assert (s + [u])[1..] == [];
      assert Escape([u]) == EscapeUnit(u) + Escape([]);
    } else {
      assert (s + [u])[1..] == s[1..] + [u];
      EscapeSnoc(s[1..], u);
    }
  }

  /** `canonicalString`: one left-to-right pass over the code units. */
  method CanonicalString(s: Name) returns (out: string)
    ensures out == Quote(s) && StringText(s, out)
  {
    QuoteExactly(s, Quote(s));
    hide StringText;
    out := "\"";
    for i := 0 to |s|
      invariant out == "\"" + Escape(s[..i])
    {
      out := out + EscapeUnit(s[i]);
      QuoteStep(s, i);
    }
    assert s[..|s|] == s;
    out := out + "\"";
  }

  lemma QuoteStep(s: Name, i: nat)
    requires i < |s|
    ensures "\"" + Escape(s[..i]) + EscapeUnit(s[i]) == "\"" + Escape(s[..i + 1])
  {
    EscapeSnoc(s[..i], s[i]);
    assert s[..i + 1] == s[..i] + [s[i]];
    var (a, b) := (Escape(s[..i]), EscapeUnit(s[i]));
    assert "\"" + a + b == "\"" + (a + b);
  }

  /** `parts.join(',')`. */
  function JoinParts(parts: seq<string>): string {
    if parts == [] then ""
    else if |parts| == 1 then parts[0]
    else parts[0] + "," + JoinParts(parts[1..])
  }

  lemma {:induction false} ItemsText(items: seq<Json>, parts: seq<string>)
    requires |parts| == |items|
    requires forall i :: 0 <= i < |items| ==> Canonical(items[i]) == Some(parts[i])
    ensures OrderedItems(items).Some? && PrintItems(OrderedItems(items).value) == JoinParts(parts)
    decreases |parts|
  {
    if items != [] {
      ItemsText(items[1..], parts[1..]);
      OrderedItemsShape(items[1..]);
      var ts := OrderedItems(items).value;
      assert ts[1..] == OrderedItems(items[1..]).value;
    }
  }

  lemma {:induction false} ItemRefused(items: seq<Json>, i: nat)
    requires i < |items| && Canonical(items[i]).None?
    ensures OrderedItems(items).None?
    decreases |items|
  {
    if i > 0 { ItemRefused(items[1..], i - 1); }
  }

  /** What one object member contributes to the text. */
  ghost function MemberPart(v: Json, name: Name): Option<string>
    requires v.JsObject? && name in v.members
  {
    match Canonical(v.members[name])
    case None => None
    case Some(text) => Some(Quote(name) + ":" + text)
  }

  lemma {:induction false} MembersText(v: Json, names: seq<Name>, parts: seq<string>)
    requires v.JsObject? && |parts| == |names|
    requires forall i :: 0 <= i < |names| ==> names[i] in v.members
    requires forall i :: 0 <= i < |names| ==> MemberPart(v, names[i]) == Some(parts[i])
    ensures OrderedMembers(v, names).Some? && PrintMembers(OrderedMembers(v, names).value) == JoinParts(parts)
    decreases |parts|
  {
    if names != [] {
      MembersText(v, names[1..], parts[1..]);
      OrderedMembersShape(v, names[1..]);
      var ms := OrderedMembers(v, names).value;
      assert ms[1..] == OrderedMembers(v, names[1..]).value;
      assert parts[0] == PrintMember(ms[0]);
    }
  }

  lemma {:induction false} MemberRefused(v: Json, names: seq<Name>, i: nat)
    requires v.JsObject? && i < |names|
    requires forall j :: 0 <= j < |names| ==> names[j] in v.members
    requires MemberPart(v, names[i]).None?
    ensures OrderedMembers(v, names).None?
    decreases |names|
  {
    if i > 0 { MemberRefused(v, names[1..], i - 1); }
  }

  // ---------------------------------------------------------------- the exact text

  /** Keys in strictly increasing order of code units. */
  ghost predicate Increasing(names: seq<Name>) {
    forall i, j :: 0 <= i < j < |names| ==> UnitsLess(names[i], names[j])
  }

  /** Each member's text: its quoted key, a colon, its value's text. */
  function Pairs(keys: seq<string>, values: seq<string>): (parts: seq<string>)
    requires |keys| == |values|
    ensures |parts| == |keys| && forall i :: 0 <= i < |parts| ==> parts[i] == keys[i] + ":" + values[i]
  {
    seq(|keys|, i requires 0 <= i < |keys| => keys[i] + ":" + values[i])
  }

  /** The canonical text of a document, as the format defines it: compact, keys sorted, safe integers only. */
  ghost predicate Writes(v: Json, t: string)
    decreases v, 1
  {
    match v
    case JsNull => t == "null"
    case JsBool(b) => t == if b then "true" else "false"
    case JsNum(num) => num.Integral? && -9_007_199_254_740_991 <= num.n <= 9_007_199_254_740_991 && IntText(num.n, t)
    case JsText(s) => StringText(s, t)
    case JsArray(items) =>
      exists parts: seq<string> :: |parts| == |items|
        && (forall i :: 0 <= i < |items| ==> Writes(items[i], parts[i])) && t == "[" + JoinParts(parts) + "]"
    case JsObject(members) =>
      exists names: seq<Name>, keys: seq<string>, values: seq<string> ::
        WritesMembers(v, names, keys, values) && t == Braced(keys, values)
  }

  function Braced(keys: seq<string>, values: seq<string>): string {
    if |keys| == |values| then "{" + JoinParts(Pairs(keys, values)) + "}" else ""
  }

  /** These are the members in order, their keys' texts and their values' texts. */
  ghost predicate WritesMembers(v: Json, names: seq<Name>, keys: seq<string>, values: seq<string>)
    requires v.JsObject?
    decreases v, 0
  {
    && |keys| == |names| && |values| == |names| && Increasing(names) && (forall k :: k in v.members <==> k in names)
    && forall i :: 0 <= i < |names| ==>
         StringText(names[i], keys[i]) && names[i] in v.members && Writes(v.members[names[i]], values[i])
  }

  /** The encoder's text is that text: for every document and every text. */
  lemma {:induction false} WritesExactly(v: Json, t: string)
    ensures Canonical(v) == Some(t) <==> Writes(v, t)
    decreases v, 1
  {
    hide StringText, IntText, UnitsLess, OrderedItems, OrderedMembers;
    match v {
      case JsNum(Integral(n)) => IntExactly(n, t);
      case JsText(s) => QuoteExactly(s, t);
      case JsArray(items) =>
        forall i, p | 0 <= i < |items| ensures Canonical(items[i]) == Some(p) <==> Writes(items[i], p) {
          WritesExactly(items[i], p);
        }
        ArrayTextExactly(v, t);
      case JsObject(members) =>
        forall k, p | k in members ensures Canonical(members[k]) == Some(p) <==> Writes(members[k], p) {
          WritesExactly(members[k], p);
        }
        ObjectTextExactly(v, t);
      case _ =>
    }
  }

  /** The texts of some documents, all of which have one. */
  ghost function Texts(items: seq<Json>): (parts: seq<string>)
    requires forall i :: 0 <= i < |items| ==> Canonical(items[i]).Some?
    ensures |parts| == |items| && forall i :: 0 <= i < |parts| ==> Canonical(items[i]) == Some(parts[i])
  {
    seq(|items|, i requires 0 <= i < |items| => Canonical(items[i]).value)
  }

  lemma ArrayText(v: Json, parts: seq<string>)
    requires v.JsArray? && |parts| == |v.items| && forall i :: 0 <= i < |parts| ==> Canonical(v.items[i]) == Some(parts[i])
    ensures Canonical(v) == Some("[" + JoinParts(parts) + "]")
  {
    hide OrderedItems;
    ItemsText(v.items, parts);
    assert Ordered(v) == Some(Arr(OrderedItems(v.items).value));
  }

  lemma ArrayTextExactly(v: Json, t: string)
    requires v.JsArray? && forall i, p :: 0 <= i < |v.items| ==> (Canonical(v.items[i]) == Some(p) <==> Writes(v.items[i], p))
    ensures Canonical(v) == Some(t) <==> Writes(v, t)
  {
    hide Canonical;
    if Canonical(v).Some? {
      PartsDefined(v);
      var parts := Texts(v.items);
      ArrayText(v, parts);
      assert forall i :: 0 <= i < |v.items| ==> Writes(v.items[i], parts[i]);
    }
    if Writes(v, t) {
      var parts: seq<string> :| |parts| == |v.items|
        && (forall i :: 0 <= i < |v.items| ==> Writes(v.items[i], parts[i])) && t == "[" + JoinParts(parts) + "]";
      ArrayText(v, parts);
    }
  }

  lemma PartsDefined(v: Json)
    requires Canonical(v).Some?
    ensures v.JsArray? ==> forall i :: 0 <= i < |v.items| ==> Canonical(v.items[i]).Some?
    ensures v.JsObject? ==> forall k :: k in v.members ==> Canonical(v.members[k]).Some?
  {
    hide Canonical;
    CanonicalDefined(v);
    if v.JsArray? {
      forall i | 0 <= i < |v.items| ensures Canonical(v.items[i]).Some? { CanonicalDefined(v.items[i]); }
    }
    if v.JsObject? {
      forall k | k in v.members ensures Canonical(v.members[k]).Some? { CanonicalDefined(v.members[k]); }
    }
  }

  function Quotes(names: seq<Name>): (keys: seq<string>)
    ensures |keys| == |names| && forall i :: 0 <= i < |keys| ==> keys[i] == Quote(names[i])
  {
    seq(|names|, i requires 0 <= i < |names| => Quote(names[i]))
  }

  /** What the object's text is for the sorted names and their values' texts. */
  lemma ObjectTextIs(v: Json, names: seq<Name>, keys: seq<string>, values: seq<string>)
    requires v.JsObject? && names == SortedNames(v.members.Keys) && keys == Quotes(names) && |values| == |names|
    requires forall i :: 0 <= i < |names| ==> names[i] in v.members && Canonical(v.members[names[i]]) == Some(values[i])
    ensures Canonical(v) == Some("{" + JoinParts(Pairs(keys, values)) + "}")
  {
    hide Canonical, Quote, UnitsLess;
    forall i | 0 <= i < |names| ensures MemberPart(v, names[i]) == Some(Pairs(keys, values)[i]) {}
    ObjectText(v, names, Pairs(keys, values));
  }

  lemma OneOrder(names: seq<Name>, s: set<Name>)
    requires Increasing(names) && forall k :: k in s <==> k in names
    ensures names == SortedNames(s)
  {
    hide UnitsLess;
    SortedNamesList(s);
    ListingUnique(names, SortedNames(s), s, UnitsLess);
  }

  /** The texts of the values agree with the encoder's. */
  ghost predicate ValuesKnown(v: Json)
    requires v.JsObject?
  {
    forall k, p :: k in v.members ==> (Canonical(v.members[k]) == Some(p) <==> Writes(v.members[k], p))
  }

  lemma MembersDecide(v: Json, names: seq<Name>, keys: seq<string>, values: seq<string>)
    requires v.JsObject? && ValuesKnown(v) && WritesMembers(v, names, keys, values)
    ensures Canonical(v) == Some(Braced(keys, values))
  {
    hide Canonical, UnitsLess, StringText, Quote, SortedNames, Writes;
    forall s: Name, q: string ensures q == Quote(s) <==> StringText(s, q) { QuoteExactly(s, q); }
    OneOrder(names, v.members.Keys);
    assert keys == Quotes(names);
    ObjectTextIs(v, names, keys, values);
  }

  ghost function ValueTexts(v: Json, names: seq<Name>): (values: seq<string>)
    requires v.JsObject? && forall i :: 0 <= i < |names| ==> names[i] in v.members && Canonical(v.members[names[i]]).Some?
    ensures |values| == |names| && forall i :: 0 <= i < |names| ==> Canonical(v.members[names[i]]) == Some(values[i])
  {
    seq(|names|, i requires 0 <= i < |names| => Canonical(v.members[names[i]]).value)
  }

  lemma MembersWritten(v: Json, names: seq<Name>, keys: seq<string>, values: seq<string>)
    requires v.JsObject? && ValuesKnown(v) && names == SortedNames(v.members.Keys) && keys == Quotes(names) && |values| == |names|
    requires forall i :: 0 <= i < |names| ==> names[i] in v.members && Canonical(v.members[names[i]]) == Some(values[i])
    ensures WritesMembers(v, names, keys, values)
  {
    hide Canonical, UnitsLess, StringText, Quote, SortedNames, Writes;
    forall s: Name ensures StringText(s, Quote(s)) { QuoteExactly(s, Quote(s)); }
    SortedNamesList(v.members.Keys);
  }

  lemma ObjectTextExactly(v: Json, t: string)
    requires v.JsObject? && ValuesKnown(v)
    ensures Canonical(v) == Some(t) <==> Writes(v, t)
  {
    hide Canonical, UnitsLess, Quotes, SortedNames, WritesMembers, ValuesKnown;
    if Canonical(v).Some? {
      PartsDefined(v);
      var names := SortedNames(v.members.Keys);
      assert forall i :: 0 <= i < |names| ==> names[i] in v.members;
      var (keys, values) := (Quotes(names), ValueTexts(v, names));
      ObjectTextIs(v, names, keys, values);
      MembersWritten(v, names, keys, values);
    }
    if Writes(v, t) {
      var names, keys, values := MembersOf(v, t);
      MembersDecide(v, names, keys, values);
    }
  }

  lemma MembersOf(v: Json, t: string) returns (names: seq<Name>, keys: seq<string>, values: seq<string>)
    requires v.JsObject? && Writes(v, t)
    ensures WritesMembers(v, names, keys, values) && t == Braced(keys, values)
  {
    hide StringText, IntText, JoinParts, Increasing;
    names, keys, values :| WritesMembers(v, names, keys, values) && t == Braced(keys, values);
  }

  /** `canonicalJson`: recursive, with one loop per array and per object. */
  method CanonicalJson(v: Json) returns (r: Option<string>)
    ensures r == Canonical(v)
    ensures forall t :: r == Some(t) <==> Writes(v, t)
    decreases v, 1
  {
    hide Writes;
    forall t ensures Canonical(v) == Some(t) <==> Writes(v, t) { WritesExactly(v, t); }
    match v {
      case JsNull => return Some("null");
      case JsBool(b) => return Some(if b then "true" else "false");
      case JsNum(num) =>
        if !IsSafeInteger(num) { return None; }
        return Some(PrintInt(num.n));
      case JsText(s) =>
        var q := CanonicalString(s);
        return Some(q);
      case JsArray(_) => r := CanonicalArray(v);
      case JsObject(_) => r := CanonicalObject(v);
    }
  }

  method CanonicalArray(v: Json) returns (r: Option<string>)
    requires v.JsArray?
    ensures r == Canonical(v)
    decreases v, 0
  {
    var parts: seq<string> := [];
    for i := 0 to |v.items|
      invariant |parts| == i
      invariant forall j :: 0 <= j < i ==> Canonical(v.items[j]) == Some(parts[j])
    {
      var s := CanonicalJson(v.items[i]);
      if s.None? {
        ItemRefused(v.items, i);
        return None;
      }
      parts := parts + [s.value];
    }
    ItemsText(v.items, parts);
    return Some("[" + JoinParts(parts) + "]");
  }

  method CanonicalObject(v: Json) returns (r: Option<string>)
    requires v.JsObject?
    ensures r == Canonical(v)
    decreases v, 0, 1
  {
    hide Canonical, MemberPart, JoinParts;
    var names := SortedNames(v.members.Keys);
    var parts: seq<string> := [];
    for i := 0 to |names|
      invariant |parts| == i
      invariant forall j :: 0 <= j < i ==> MemberPart(v, names[j]) == Some(parts[j])
    {
      var part := CanonicalMember(v, names[i]);
      if part.None? {
        ObjectRefused(v, names, i);
        return None;
      }
      parts := parts + [part.value];
    }
    ObjectText(v, names, parts);
    return Some("{" + JoinParts(parts) + "}");
  }

  method CanonicalMember(v: Json, name: Name) returns (r: Option<string>)
    requires v.JsObject? && name in v.members
    ensures r == MemberPart(v, name)
    decreases v, 0, 0
  {
    var s := CanonicalJson(v.members[name]);
    if s.None? { return None; }
    var q := CanonicalString(name);
    return Some(q + ":" + s.value);
  }

  lemma ObjectText(v: Json, names: seq<Name>, parts: seq<string>)
    requires v.JsObject? && names == SortedNames(v.members.Keys) && |parts| == |names|
    requires forall i :: 0 <= i < |names| ==> MemberPart(v, names[i]) == Some(parts[i])
    ensures Canonical(v) == Some("{" + JoinParts(parts) + "}")
  {
    MembersText(v, names, parts);
    ObjectPrinted(v, names, OrderedMembers(v, names).value);
  }

  lemma ObjectPrinted(v: Json, names: seq<Name>, ms: seq<Member>)
    requires v.JsObject? && names == SortedNames(v.members.Keys)
    requires OrderedMembers(v, names) == Some(ms)
    ensures Canonical(v) == Some("{" + PrintMembers(ms) + "}")
  {
    assert Ordered(v) == Some(Obj(ms));
  }

  lemma ObjectRefused(v: Json, names: seq<Name>, i: nat)
    requires v.JsObject? && names == SortedNames(v.members.Keys) && i < |names|
    requires MemberPart(v, names[i]).None?
    ensures Canonical(v).None?
  {
    MemberRefused(v, names, i);
    assert Ordered(v).None?;
  }
}
