/** The exact text of canonical strings and integers, character by character. */
module CanonicalText {
  import opened Base
  import opened JsonText
  import Decimal

  const HEX := "0123456789abcdef"

  /** The text of one code unit in a canonical string: seven short escapes, printable ASCII, four hex digits otherwise. */
  ghost predicate EscapeOf(u: Unit, t: string) {
    if u == 8 then t == "\\b"
    else if u == 9 then t == "\\t"
    else if u == 10 then t == "\\n"
    else if u == 12 then t == "\\f"
    else if u == 13 then t == "\\r"
    else if u == 34 then t == "\\\""
    else if u == 92 then t == "\\\\"
    else if 32 <= u <= 126 then |t| == 1 && t[0] as int == u
    else exists a: nat, b: nat, c: nat, d: nat :: HexOf(u, t, a, b, c, d)
  }

  /** A backslash, `u`, and the four lower-case hex digits whose value is the unit. */
  predicate HexOf(u: Unit, t: string, a: nat, b: nat, c: nat, d: nat) {
    && a < 16 && b < 16 && c < 16 && d < 16
    && u == ((a * 16 + b) * 16 + c) * 16 + d
    && t == ['\\', 'u', HEX[a], HEX[b], HEX[c], HEX[d]]
  }

  lemma HexCharExactly(d: nat)
    requires d < 16
    ensures HexChar(d) == HEX[d]
  {
    if d < 4 {
      assert HEX[0] == '0' && HEX[1] == '1' && HEX[2] == '2' && HEX[3] == '3';
    } else if d < 8 {
      assert HEX[4] == '4' && HEX[5] == '5' && HEX[6] == '6' && HEX[7] == '7';
    } else if d < 12 {
      assert HEX[8] == '8' && HEX[9] == '9' && HEX[10] == 'a' && HEX[11] == 'b';
    } else {
      assert HEX[12] == 'c' && HEX[13] == 'd' && HEX[14] == 'e' && HEX[15] == 'f';
    }
  }

  lemma NibblesUnique(u: Unit, a: nat, b: nat, c: nat, d: nat)
    requires a < 16 && b < 16 && c < 16 && d < 16 && u == ((a * 16 + b) * 16 + c) * 16 + d
    ensures d == u % 16 && c == u / 16 % 16 && b == u / 16 / 16 % 16 && a == u / 16 / 16 / 16
  {
    assert u / 16 == (a * 16 + b) * 16 + c;
    assert u / 16 / 16 == a * 16 + b;
  }

  lemma HexEscapeExactly(u: Unit, t: string)
    ensures t == "\\u" + Decimal.PadStart(Hex(u), 4) <==> exists a: nat, b: nat, c: nat, d: nat :: HexOf(u, t, a, b, c, d)
  {
    hide Hex, Decimal.PadStart, HexChar;
    var (c, b, a) := (u / 16, u / 16 / 16, u / 16 / 16 / 16);
    HexFour(u, c, b, a);
    HexCharExactly(a);
    HexCharExactly(b % 16);
    HexCharExactly(c % 16);
    HexCharExactly(u % 16);
    var text := "\\u" + Decimal.PadStart(Hex(u), 4);
    assert text == ['\\', 'u', HEX[a], HEX[b % 16], HEX[c % 16], HEX[u % 16]];
    assert HexOf(u, text, a, b % 16, c % 16, u % 16);
    if a': nat, b': nat, c': nat, d': nat :| HexOf(u, t, a', b', c', d') { NibblesUnique(u, a', b', c', d'); }
  }

  /** The encoder writes for each unit that text and no other. */
  lemma EscapeExactly(u: Unit, t: string)
    ensures t == EscapeUnit(u) <==> EscapeOf(u, t)
  {
    hide Hex, Decimal.PadStart, HexOf;
    HexEscapeExactly(u, t);
    if |t| == 1 && t[0] as int == u { assert t == [u as char]; }
  }

  // ---------------------------------------------------------------- strings

  function Flat(pieces: seq<string>): string {
    if pieces == [] then "" else pieces[0] + Flat(pieces[1..])
  }

  /** A quote, the text of each unit in turn, and a quote. */
  ghost predicate StringText(s: seq<Unit>, t: string) {
    exists pieces: seq<string> :: |pieces| == |s| && Pieces(s, pieces) && t == "\"" + Flat(pieces) + "\""
  }

  ghost predicate Pieces(s: seq<Unit>, pieces: seq<string>)
    requires |pieces| == |s|
  {
    forall i :: 0 <= i < |s| ==> EscapeOf(s[i], pieces[i])
  }

  function EscapePieces(s: seq<Unit>): (pieces: seq<string>)
    ensures |pieces| == |s| && forall i :: 0 <= i < |s| ==> pieces[i] == EscapeUnit(s[i])
  {
    seq(|s|, i requires 0 <= i < |s| => EscapeUnit(s[i]))
  }

  lemma {:induction false} EscapeIsFlat(s: seq<Unit>, pieces: seq<string>)
    requires |pieces| == |s| && forall i :: 0 <= i < |s| ==> pieces[i] == EscapeUnit(s[i])
    ensures Escape(s) == Flat(pieces)
    decreases |s|
  {
    hide EscapeUnit;
    if s != [] { EscapeIsFlat(s[1..], pieces[1..]); }
  }

  lemma QuoteExactly(s: seq<Unit>, t: string)
    ensures t == Quote(s) <==> StringText(s, t)
  {
    hide EscapeUnit, EscapeOf, Escape;
    forall u: Unit, p: string ensures p == EscapeUnit(u) <==> EscapeOf(u, p) { EscapeExactly(u, p); }
    EscapeIsFlat(s, EscapePieces(s));
    assert Pieces(s, EscapePieces(s));
    if StringText(s, t) {
      var pieces: seq<string> :| |pieces| == |s| && Pieces(s, pieces) && t == "\"" + Flat(pieces) + "\"";
      EscapeIsFlat(s, pieces);
    }
  }

  // ---------------------------------------------------------------- integers

  /** The digits of a natural number: no leading zero, and nothing else. */
  predicate DigitsOf(n: nat, t: string) {
    t != "" && Decimal.AllDigits(t) && (t[0] == '0' ==> t == "0") && Decimal.Read(t) == n
  }

  /** A minus sign exactly for negative numbers. */
  predicate IntText(n: int, t: string) {
    if n < 0 then t != "" && t[0] == '-' && DigitsOf(-n, t[1..]) else DigitsOf(n, t)
  }

  lemma {:induction false} PrintHasNoLeadingZero(n: nat)
    ensures Decimal.Print(n)[0] == '0' ==> Decimal.Print(n) == "0"
    ensures Decimal.Print(n)[0] == '0' ==> n == 0
  {
    if n >= 10 {
      PrintHasNoLeadingZero(n / 10);
      assert Decimal.Print(n)[0] == Decimal.Print(n / 10)[0];
    }
  }

  lemma LeadingZero(zeros: nat, n: nat)
    ensures var t := Decimal.Zeros(zeros) + Decimal.Print(n); zeros > 0 ==> t[0] == '0' && |t| > 1
  {
  }

  lemma DigitsExactly(n: nat, t: string)
    ensures t == Decimal.Print(n) <==> DigitsOf(n, t)
  {
    hide Decimal.Read;
    PrintHasNoLeadingZero(n);
    Decimal.ReadPrint(n);
    if DigitsOf(n, t) {
      var zeros := Decimal.EveryDigitStringIsANumeral(t);
      LeadingZero(zeros, n);
      assert Decimal.Zeros(0) + Decimal.Print(n) == Decimal.Print(n);
    }
  }

  lemma IntExactly(n: int, t: string)
    ensures t == PrintInt(n) <==> IntText(n, t)
  {
    hide DigitsOf, Decimal.Print;
    if n < 0 {
      if t != "" {
        DigitsExactly(-n, t[1..]);
        if t[0] == '-' { assert t == "-" + t[1..]; }
      }
      assert ("-" + Decimal.Print(-n))[1..] == Decimal.Print(-n);
    } else {
      DigitsExactly(n, t);
    }
  }
}
