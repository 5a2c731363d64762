/** Canonical JSON text: the compact, ASCII-only printing both languages emit, and a reader for it. */
module JsonText {
  import opened Base
  import Decimal

  /** A UTF-16 code unit, the element of a JavaScript string. */
  type Unit = u: int | 0 <= u < 0x1_0000

  /** A document with its object members in the order they are printed. */
  datatype Tree =
    | Null
    | Bool(b: bool)
    | Int(n: int)
    | Fraction(repr: string)
    | Text(s: seq<Unit>)
    | Arr(items: seq<Tree>)
    | Obj(members: seq<Member>)

  datatype Member = Member(key: seq<Unit>, value: Tree)

  // ---------------------------------------------------------------- strings

  function HexChar(d: nat): char
    requires d < 16
  {
    if d < 10 then ('0' as int + d) as char else ('a' as int + (d - 10)) as char
  }

  /** `c.toString(16)`. */
  function Hex(n: nat): string {
    if n < 16 then [HexChar(n)] else Hex(n / 16) + [HexChar(n % 16)]
  }

  function EscapeUnit(u: Unit): string {
    if u == 0x22 then "\\\""
    else if u == 0x5c then "\\\\"
    else if u == 0x08 then "\\b"
    else if u == 0x09 then "\\t"
    else if u == 0x0a then "\\n"
    else if u == 0x0c then "\\f"
    else if u == 0x0d then "\\r"
    else if u < 0x20 || u > 0x7e then "\\u" + Decimal.PadStart(Hex(u), 4)
    else [u as char]
  }

  function Escape(s: seq<Unit>): string {
    if s == [] then "" else EscapeUnit(s[0]) + Escape(s[1..])
  }

  function Quote(s: seq<Unit>): string {
    "\"" + Escape(s) + "\""
  }

  // ---------------------------------------------------------------- printing

  function PrintInt(n: int): string {
    if n < 0 then "-" + Decimal.Print(-n) else Decimal.Print(n)
  }

  function Print(t: Tree): string
    decreases t, 0
  {
    match t
    case Null => "null"
    case Bool(b) => if b then "true" else "false"
    case Int(n) => PrintInt(n)
    case Fraction(repr) => repr
    case Text(s) => Quote(s)
    case Arr(items) => "[" + PrintItems(items) + "]"
    case Obj(members) => "{" + PrintMembers(members) + "}"
  }

  function PrintItems(items: seq<Tree>): string
    decreases items, 1
  {
    if items == [] then ""
    else if |items| == 1 then Print(items[0])
    else Print(items[0]) + "," + PrintItems(items[1..])
  }

  function PrintMember(m: Member): string
    decreases m, 1
  {
    Quote(m.key) + ":" + Print(m.value)
  }

  function PrintMembers(members: seq<Member>): string
    decreases members, 2
  {
    if members == [] then ""
    else if |members| == 1 then PrintMember(members[0])
    else PrintMember(members[0]) + "," + PrintMembers(members[1..])
  }

  // ---------------------------------------------------------------- reading

  datatype Parsed<T> = Bad | Good(value: T, rest: string)

  function HexValue(c: char): Option<nat> {
    if '0' <= c <= '9' then Some(c as int - '0' as int)
    else if 'a' <= c <= 'f' then Some(c as int - 'a' as int + 10)
    else if 'A' <= c <= 'F' then Some(c as int - 'A' as int + 10)
    else None
  }

  /** The four digits after a backslash and `u`. */
  function ReadHex4(s: string): (r: Parsed<Unit>)
    ensures r.Good? ==> |r.rest| < |s|
  {
    if |s| < 4 then Bad else
      var (a, b, c, d) := (HexValue(s[0]), HexValue(s[1]), HexValue(s[2]), HexValue(s[3]));
      if a.None? || b.None? || c.None? || d.None? then Bad
      else Good(a.value * 4096 + b.value * 256 + c.value * 16 + d.value, s[4..])
  }

  /** One character of a string body, by the grammar of section 7 of RFC 8259. */
  function ReadUnit(s: string): (r: Parsed<Unit>)
    ensures r.Good? ==> |r.rest| < |s|
  {
    if s == "" then Bad
    else if s[0] == '\\' then
      if |s| == 1 then Bad
      else if s[1] == '"' then Good(0x22, s[2..])
      else if s[1] == '\\' then Good(0x5c, s[2..])
      else if s[1] == '/' then Good(0x2f, s[2..])
      else if s[1] == 'b' then Good(0x08, s[2..])
      else if s[1] == 'f' then Good(0x0c, s[2..])
      else if s[1] == 'n' then Good(0x0a, s[2..])
      else if s[1] == 'r' then Good(0x0d, s[2..])
      else if s[1] == 't' then Good(0x09, s[2..])
      else if s[1] == 'u' then ReadHex4(s[2..])
      else Bad
    else if s[0] as int < 0x20 || s[0] == '"' || s[0] as int >= 0x1_0000 then Bad
    else Good(s[0] as int, s[1..])
  }

  /** A string body up to and including its closing quote. */
  function ReadBody(s: string): (r: Parsed<seq<Unit>>)
    ensures r.Good? ==> |r.rest| < |s|
    decreases |s|
  {
    if s == "" then Bad
    else if s[0] == '"' then Good([], s[1..])
    else
      match ReadUnit(s)
      case Bad => Bad
      case Good(u, rest) =>
        match ReadBody(rest)
        case Bad => Bad
        case Good(us, rest') => Good([u] + us, rest')
  }

  predicate IsNumberChar(c: char) {
    Decimal.IsDigit(c) || c == '-' || c == '+' || c == '.' || c == 'e' || c == 'E'
  }

  /** How many characters of `s` belong to the number it starts with. */
  function NumberLength(s: string): (n: nat)
    ensures n <= |s|
    ensures forall i :: 0 <= i < n ==> IsNumberChar(s[i])
    ensures n < |s| ==> !IsNumberChar(s[n])
  {
    if s == "" || !IsNumberChar(s[0]) then 0 else 1 + NumberLength(s[1..])
  }

  predicate IsIntText(s: string) {
    if s != "" && s[0] == '-' then |s| > 1 && Decimal.AllDigits(s[1..]) else s != "" && Decimal.AllDigits(s)
  }

  function NumberOf(s: string): Tree {
    if !IsIntText(s) then Fraction(s)
    else if s[0] == '-' then Int(0 - Decimal.Read(s[1..]))
    else Int(Decimal.Read(s))
  }

  function ReadNumber(s: string): (r: Parsed<Tree>)
    ensures r.Good? ==> |r.rest| < |s|
  {
    var n := NumberLength(s);
    if n == 0 then Bad else Good(NumberOf(s[..n]), s[n..])
  }

  function ReadWord(s: string, word: string, t: Tree): (r: Parsed<Tree>)
    requires word != ""
    ensures r.Good? ==> |r.rest| < |s|
  {
    if word <= s then Good(t, s[|word|..]) else Bad
  }

  function ReadTree(s: string): (r: Parsed<Tree>)
    ensures r.Good? ==> |r.rest| < |s|
    decreases |s|, 0
  {
    if s == "" then Bad
    else if s[0] == 'n' then ReadWord(s, "null", Null)
    else if s[0] == 't' then ReadWord(s, "true", Bool(true))
    else if s[0] == 'f' then ReadWord(s, "false", Bool(false))
    else if s[0] == '"' then
      match ReadBody(s[1..])
      case Bad => Bad
      case Good(us, rest) => Good(Text(us), rest)
    else if s[0] == '[' then
      if |s| > 1 && s[1] == ']' then Good(Arr([]), s[2..])
      else
        match ReadItems(s[1..])
        case Bad => Bad
        case Good(items, rest) => Good(Arr(items), rest)
    else if s[0] == '{' then
      if |s| > 1 && s[1] == '}' then Good(Obj([]), s[2..])
      else
        match ReadMembers(s[1..])
        case Bad => Bad
        case Good(members, rest) => Good(Obj(members), rest)
    else ReadNumber(s)
  }

  /** One or more comma separated items and the closing bracket. */
  function ReadItems(s: string): (r: Parsed<seq<Tree>>)
    ensures r.Good? ==> |r.rest| < |s|
    decreases |s|, 1
  {
    match ReadTree(s)
    case Bad => Bad
    case Good(t, rest) =>
      if rest == "" then Bad
      else if rest[0] == ']' then Good([t], rest[1..])
      else if rest[0] != ',' then Bad
      else
        match ReadItems(rest[1..])
        case Bad => Bad
        case Good(ts, rest') => Good([t] + ts, rest')
  }

  function ReadMember(s: string): (r: Parsed<Member>)
    ensures r.Good? ==> |r.rest| < |s|
    decreases |s|, 1
  {
    if s == "" || s[0] != '"' then Bad
    else
      match ReadBody(s[1..])
      case Bad => Bad
      case Good(key, rest) =>
        if rest == "" || rest[0] != ':' then Bad
        else
          match ReadTree(rest[1..])
          case Bad => Bad
          case Good(t, rest') => Good(Member(key, t), rest')
  }

  function ReadMembers(s: string): (r: Parsed<seq<Member>>)
    ensures r.Good? ==> |r.rest| < |s|
    decreases |s|, 2
  {
    match ReadMember(s)
    case Bad => Bad
    case Good(m, rest) =>
      if rest == "" then Bad
      else if rest[0] == '}' then Good([m], rest[1..])
      else if rest[0] != ',' then Bad
      else
        match ReadMembers(rest[1..])
        case Bad => Bad
        case Good(ms, rest') => Good([m] + ms, rest')
  }

  // ---------------------------------------------------------------- reading undoes printing

  lemma HexCharValue(d: nat)
    requires d < 16
    ensures HexValue(HexChar(d)) == Some(d)
  {
  }

  lemma HexFour(u: Unit, c: nat, b: nat, a: nat)
    requires c == u / 16 && b == c / 16 && a == b / 16
    ensures a < 16
    ensures Decimal.PadStart(Hex(u), 4) == [HexChar(a), HexChar(b % 16), HexChar(c % 16), HexChar(u % 16)]
  {
    if u < 16 {
      assert Hex(u) == [HexChar(u)];
    } else if c < 16 {
      assert Hex(u) == [HexChar(c), HexChar(u % 16)];
    } else if b < 16 {
      assert Hex(c) == [HexChar(b), HexChar(c % 16)];
    } else {
      assert Hex(b) == [HexChar(a), HexChar(b % 16)];
      assert Hex(c) == Hex(b) + [HexChar(c % 16)];
    }
  }

  lemma ReadNibbles(a: nat, b: nat, c: nat, d: nat, rest: string)
    requires a < 16 && b < 16 && c < 16 && d < 16
    ensures ReadHex4([HexChar(a), HexChar(b), HexChar(c), HexChar(d)] + rest)
         == Good(a * 4096 + b * 256 + c * 16 + d, rest)
  {
    var s := [HexChar(a), HexChar(b), HexChar(c), HexChar(d)] + rest;
    HexCharValue(a);
    HexCharValue(b);
    HexCharValue(c);
    HexCharValue(d);
    assert s[4..] == rest;
  }

  lemma ReadHexEscape(u: Unit, rest: string)
    ensures ReadUnit("\\u" + Decimal.PadStart(Hex(u), 4) + rest) == Good(u, rest)
  {
    var c := u / 16;
    var b := c / 16;
    var a := b / 16;
    HexFour(u, c, b, a);
    ReadNibbles(a, b % 16, c % 16, u % 16, rest);
    var h := Decimal.PadStart(Hex(u), 4);
    assert ("\\u" + h + rest)[2..] == h + rest;
  }

  /** Every escape is one the RFC's reader maps back to the same code unit. */
  lemma ReadEscape(u: Unit, rest: string)
    ensures ReadUnit(EscapeUnit(u) + rest) == Good(u, rest)
    ensures EscapeUnit(u)[0] != '"'
  {
    hide Hex, Decimal.PadStart, ReadHex4;
    var s := EscapeUnit(u) + rest;
    if |EscapeUnit(u)| == 1 {
      assert s[1..] == rest;
    } else if |EscapeUnit(u)| == 2 {
      assert s[2..] == rest;
    } else {
      ReadHexEscape(u, rest);
    }
  }

  lemma {:induction false} ReadQuoted(s: seq<Unit>, rest: string)
    ensures ReadBody(Escape(s) + "\"" + rest) == Good(s, rest)
    decreases |s|
  {
    if s == [] {
      assert Escape(s) + "\"" + rest == "\"" + rest;
      assert ("\"" + rest)[1..] == rest;
    } else {
      var tail := Escape(s[1..]) + "\"" + rest;
      assert Escape(s) + "\"" + rest == EscapeUnit(s[0]) + tail;
      ReadEscape(s[0], tail);
      ReadQuoted(s[1..], rest);
      assert [s[0]] + s[1..] == s;
    }
  }

  /** What may follow a value: nothing a number could swallow. */
  predicate Delimited(rest: string) {
    rest == "" || !IsNumberChar(rest[0])
  }

  /** A fraction's text is a number token that is not an integer's. */
  predicate IsFractionText(s: string) {
    s != "" && (forall i :: 0 <= i < |s| ==> IsNumberChar(s[i])) && !IsIntText(s)
  }

  predicate Printable(t: Tree)
  {
    match t
    case Fraction(repr) => IsFractionText(repr)
    case Arr(items) => forall i :: 0 <= i < |items| ==> Printable(items[i])
    case Obj(members) => forall i :: 0 <= i < |members| ==> Printable(members[i].value)
    case _ => true
  }

  lemma {:induction false} NumberSpan(s: string, rest: string)
    requires (forall i :: 0 <= i < |s| ==> IsNumberChar(s[i])) && Delimited(rest)
    ensures NumberLength(s + rest) == |s|
    decreases |s|
  {
    if s == "" {
      assert s + rest == rest;
    } else {
      assert (s + rest)[1..] == s[1..] + rest;
      NumberSpan(s[1..], rest);
    }
  }

  lemma PrintIntFacts(n: int)
    ensures var s := PrintInt(n);
            IsIntText(s) && NumberOf(s) == Int(n) && forall i :: 0 <= i < |s| ==> IsNumberChar(s[i])
  {
    Decimal.ReadPrint(Abs(n));
    if n < 0 {
      assert PrintInt(n)[1..] == Decimal.Print(-n);
    }
  }

  lemma ReadNumeral(s: string, rest: string)
    requires s != "" && (forall i :: 0 <= i < |s| ==> IsNumberChar(s[i])) && Delimited(rest)
    ensures ReadTree(s + rest) == Good(NumberOf(s), rest)
  {
    NumberSpan(s, rest);
    assert (s + rest)[..|s|] == s && (s + rest)[|s|..] == rest;
    assert IsNumberChar((s + rest)[0]);
  }

  /** The first character of a printed value; never a closing bracket. */
  lemma PrintStart(t: Tree)
    requires Printable(t)
    ensures Print(t) != "" && Print(t)[0] != ']' && Print(t)[0] != '}'
  {
    match t {
      case Int(n) => PrintIntFacts(n);
      case _ =>
    }
  }

  lemma ReadPrintWord(t: Tree, rest: string)
    requires t.Null? || t.Bool?
    ensures ReadTree(Print(t) + rest) == Good(t, rest)
  {
    var w := Print(t);
    var s := w + rest;
    assert w <= s && s[|w|..] == rest && s[0] == w[0];
  }

  lemma ReadPrintText(us: seq<Unit>, rest: string)
    ensures ReadTree(Quote(us) + rest) == Good(Text(us), rest)
  {
    var s := Quote(us) + rest;
    assert s[0] == '"' && s[1..] == Escape(us) + "\"" + rest;
    ReadQuoted(us, rest);
  }

  /** The reader recovers any printed document, whatever follows it. */
  lemma {:induction false} ReadPrint(t: Tree, rest: string)
    requires Printable(t) && Delimited(rest)
    ensures ReadTree(Print(t) + rest) == Good(t, rest)
    decreases t, 0
  {
    match t {
      case Null => ReadPrintWord(t, rest);
      case Bool(_) => ReadPrintWord(t, rest);
      case Int(n) =>
        PrintIntFacts(n);
        ReadNumeral(PrintInt(n), rest);
      case Fraction(repr) => ReadNumeral(repr, rest);
      case Text(us) => ReadPrintText(us, rest);
      case Arr(items) =>
        if items != [] {
          ReadPrintItems(items, rest);
          PrintStart(items[0]);
        }
        ReadBrackets(items, rest);
      case Obj(members) =>
        if members != [] { ReadPrintMembers(members, rest); }
        ReadBraces(members, rest);
    }
  }

  lemma Wrapped(open: char, body: string, close: char, rest: string) returns (s: string)
    ensures s == [open] + body + [close] + rest
    ensures |s| > 1 && s[0] == open && s[1..] == body + ([close] + rest)
    ensures s[1] == if body == "" then close else body[0]
    ensures body == "" ==> s[2..] == rest
  {
    s := [open] + body + [close] + rest;
  }

  lemma ReadBrackets(items: seq<Tree>, rest: string)
    requires items != [] ==> ReadItems(PrintItems(items) + ("]" + rest)) == Good(items, rest)
    requires items != [] ==> Print(items[0]) != "" && Print(items[0])[0] != ']'
    ensures ReadTree("[" + PrintItems(items) + "]" + rest) == Good(Arr(items), rest)
  {
    var body := PrintItems(items);
    assert items != [] ==> body != "" && body[0] == Print(items[0])[0];
    var s := Wrapped('[', body, ']', rest);
  }

  lemma ReadBraces(members: seq<Member>, rest: string)
    requires members != [] ==> ReadMembers(PrintMembers(members) + ("}" + rest)) == Good(members, rest)
    ensures ReadTree("{" + PrintMembers(members) + "}" + rest) == Good(Obj(members), rest)
  {
    var body := PrintMembers(members);
    assert members != [] ==> body != "" && body[0] == PrintMember(members[0])[0] == '"';
    var s := Wrapped('{', body, '}', rest);
  }

  lemma {:induction false} ReadPrintItems(items: seq<Tree>, rest: string)
    requires items != [] && forall i :: 0 <= i < |items| ==> Printable(items[i])
    ensures ReadItems(PrintItems(items) + ("]" + rest)) == Good(items, rest)
    decreases items, 1
  {
    if |items| == 1 {
      ReadPrint(items[0], "]" + rest);
      assert ("]" + rest)[1..] == rest;
      assert [items[0]] == items;
    } else {
      var tail := PrintItems(items[1..]) + ("]" + rest);
      ReadPrint(items[0], "," + tail);
      ReadPrintItems(items[1..], rest);
      ItemsStep(items, rest, tail);
    }
  }

  lemma ItemsStep(items: seq<Tree>, rest: string, tail: string)
    requires |items| > 1 && tail == PrintItems(items[1..]) + ("]" + rest)
    requires ReadTree(Print(items[0]) + ("," + tail)) == Good(items[0], "," + tail)
    requires ReadItems(tail) == Good(items[1..], rest)
    ensures ReadItems(PrintItems(items) + ("]" + rest)) == Good(items, rest)
  {
    hide ReadTree, Print, ReadItems, PrintItems;
    ItemsText(items);
    Reassociate(Print(items[0]), PrintItems(items[1..]), "]" + rest);
    OneItemRead(Print(items[0]) + ("," + tail), items[0], tail, items[1..], rest);
    assert [items[0]] + items[1..] == items;
  }

  lemma Reassociate(a: string, b: string, c: string)
    ensures (a + "," + b) + c == a + ("," + (b + c))
  {
  }

  lemma ItemsText(items: seq<Tree>)
    requires |items| > 1
    ensures PrintItems(items) == Print(items[0]) + "," + PrintItems(items[1..])
  {
    hide Print;
  }

  lemma OneItemRead(s: string, t: Tree, tail: string, ts: seq<Tree>, rest: string)
    requires ReadTree(s) == Good(t, "," + tail) && ReadItems(tail) == Good(ts, rest)
    ensures ReadItems(s) == Good([t] + ts, rest)
  {
    hide ReadTree;
    assert ("," + tail)[1..] == tail;
  }

  lemma MemberText(key: string, value: string, rest: string) returns (s: string, mid: string)
    ensures s == "\"" + key + "\"" + ":" + value + rest
    ensures mid != "" && mid[0] == ':' && mid[1..] == value + rest
    ensures s != "" && s[0] == '"' && s[1..] == key + "\"" + mid
  {
    mid := ":" + (value + rest);
    s := "\"" + (key + "\"" + mid);
  }

  lemma {:induction false} ReadPrintMember(m: Member, rest: string)
    requires Printable(m.value) && Delimited(rest)
    ensures ReadMember(PrintMember(m) + rest) == Good(m, rest)
    decreases m, 1
  {
    var s, mid := MemberText(Escape(m.key), Print(m.value), rest);
    ReadPrint(m.value, rest);
    ReadQuoted(m.key, mid);
  }

  lemma {:induction false} ReadPrintMembers(members: seq<Member>, rest: string)
    requires members != [] && forall i :: 0 <= i < |members| ==> Printable(members[i].value)
    ensures ReadMembers(PrintMembers(members) + ("}" + rest)) == Good(members, rest)
    decreases members, 2
  {
    var first := PrintMember(members[0]);
    if |members| == 1 {
      ReadPrintMember(members[0], "}" + rest);
      assert ("}" + rest)[1..] == rest;
      assert [members[0]] == members;
    } else {
      var tail := PrintMembers(members[1..]) + ("}" + rest);
      ReadPrintMember(members[0], "," + tail);
      ReadPrintMembers(members[1..], rest);
      MembersStep(members, rest, tail);
    }
  }

  lemma MembersStep(members: seq<Member>, rest: string, tail: string)
    requires |members| > 1 && tail == PrintMembers(members[1..]) + ("}" + rest)
    requires ReadMember(PrintMember(members[0]) + ("," + tail)) == Good(members[0], "," + tail)
    requires ReadMembers(tail) == Good(members[1..], rest)
    ensures ReadMembers(PrintMembers(members) + ("}" + rest)) == Good(members, rest)
  {
    hide ReadMember, PrintMember, ReadMembers, PrintMembers;
    MembersText(members);
    Reassociate(PrintMember(members[0]), PrintMembers(members[1..]), "}" + rest);
    OneMemberRead(PrintMember(members[0]) + ("," + tail), members[0], tail, members[1..], rest);
    assert [members[0]] + members[1..] == members;
  }

  lemma MembersText(members: seq<Member>)
    requires |members| > 1
    ensures PrintMembers(members) == PrintMember(members[0]) + "," + PrintMembers(members[1..])
  {
    hide PrintMember;
  }

  lemma OneMemberRead(s: string, m: Member, tail: string, ms: seq<Member>, rest: string)
    requires ReadMember(s) == Good(m, "," + tail) && ReadMembers(tail) == Good(ms, rest)
    ensures ReadMembers(s) == Good([m] + ms, rest)
  {
    hide ReadMember;
    assert ("," + tail)[1..] == tail;
  }

  /** Equal text means equal documents, member order included. */
  lemma PrintInjective(t: Tree, u: Tree)
    requires Printable(t) && Printable(u) && Print(t) == Print(u)
    ensures t == u
  {
    ReadPrint(t, "");
    ReadPrint(u, "");
    assert Print(t) + "" == Print(t) && Print(u) + "" == Print(u);
  }
}
