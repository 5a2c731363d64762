/** The base64 encoding of section 4 of RFC 4648, and the character classes of the grid's grammars in its terms. */
module Base64 {
  import opened Base
  import opened Keys
  import opened Signing

  /** Table 1 of section 4 of RFC 4648. */
  function Sextet(n: nat): char
    requires n < 64
  {
    if n < 26 then ('A' as int + n) as char
    else if n < 52 then ('a' as int + (n - 26)) as char
    else if n < 62 then ('0' as int + (n - 52)) as char
    else if n == 62 then '+'
    else '/'
  }

  /** The four characters of three bytes. */
  function Group(x: Byte, y: Byte, z: Byte): string {
    [Sextet(x / 4), Sextet(x % 4 * 16 + y / 16), Sextet(y % 16 * 4 + z / 64), Sextet(z % 64)]
  }

  /** Three bytes make four characters; one or two left over make two or three, padded with `=`. */
  function Encode(b: Bytes): string {
    if b == [] then ""
    else if |b| == 1 then Group(b[0], 0, 0)[..2] + "=="
    else if |b| == 2 then Group(b[0], b[1], 0)[..3] + "="
    else Group(b[0], b[1], b[2]) + Encode(b[3..])
  }

  predicate IsSextet(c: char) {
    exists n :: 0 <= n < 64 && c == Sextet(n)
  }

  /** The first 62 sextets are the letters and digits. */
  predicate IsWordChar(c: char) {
    exists n :: 0 <= n < 62 && c == Sextet(n)
  }

  lemma AlnumExactly(c: char)
    ensures IsAlnum(c) <==> IsWordChar(c)
  {
    if 'A' <= c <= 'Z' { assert c == Sextet(c as int - 'A' as int); }
    if 'a' <= c <= 'z' { assert c == Sextet(c as int - 'a' as int + 26); }
    if '0' <= c <= '9' { assert c == Sextet(c as int - '0' as int + 52); }
  }

  lemma SextetExactly(c: char)
    ensures IsSextet(c) <==> IsAlnum(c) || c == '+' || c == '/'
  {
    AlnumExactly(c);
    if IsAlnum(c) {
      var n :| 0 <= n < 62 && c == Sextet(n);
      assert c == Sextet(n);
    }
    if c == '+' { assert c == Sextet(62); }
    if c == '/' { assert c == Sextet(63); }
    if IsSextet(c) {
      var n :| 0 <= n < 64 && c == Sextet(n);
      if n < 62 { assert IsWordChar(c); }
    }
  }

  // ---------------------------------------------------------------- the grammars, exactly

  /** Characters of the alphabet, at least one, and at most two `=`: what the decoder is given. */
  ghost predicate Shaped(s: string) {
    exists body: string, pad: string ::
      s == body + pad && body != "" && (pad == "" || pad == "=" || pad == "==") && forall i :: 0 <= i < |body| ==> IsSextet(body[i])
  }

  lemma BodyExactly(s: string)
    ensures IsBase64Body(s) <==> s != "" && forall i :: 0 <= i < |s| ==> IsSextet(s[i])
  {
    forall i | 0 <= i < |s| ensures IsSextet(s[i]) <==> IsAlnum(s[i]) || s[i] == '+' || s[i] == '/' { SextetExactly(s[i]); }
  }

  lemma ShapedExactly(s: string)
    ensures IsBase64Text(s) <==> Shaped(s)
  {
    hide IsBase64Body, IsSextet;
    if IsBase64Text(s) {
      if IsBase64Body(s) {
        IsSplit(s, "", s);
      } else if |s| > 0 && s[|s| - 1..] == "=" && IsBase64Body(s[..|s| - 1]) {
        IsSplit(s[..|s| - 1], "=", s);
      } else {
        IsSplit(s[..|s| - 2], "==", s);
      }
    }
    if Shaped(s) {
      var body: string, pad: string :| s == body + pad && body != "" && (pad == "" || pad == "=" || pad == "==")
        && forall i :: 0 <= i < |body| ==> IsSextet(body[i]);
      BodyExactly(body);
      IsJoined(body, pad, s);
    }
  }

  lemma IsJoined(body: string, pad: string, s: string)
    requires IsBase64Body(body) && s == body + pad && (pad == "" || pad == "=" || pad == "==")
    ensures IsBase64Text(s)
  {
    hide IsBase64Body;
    assert body != "" by { BodyExactly(body); }
    if pad == "" {
      assert s == body;
    } else if pad == "=" {
      assert s[|s| - 1..] == "=" && s[..|s| - 1] == body;
    } else {
      assert s[|s| - 2..] == "==" && s[..|s| - 2] == body;
    }
  }

  lemma IsSplit(body: string, pad: string, s: string)
    requires IsBase64Body(body) && s == body + pad && (pad == "" || pad == "=" || pad == "==")
    ensures Shaped(s)
  {
    BodyExactly(body);
  }

  lemma NodeIdExactly(s: string)
    ensures IsNodeId(s) <==>
              1 <= |s| <= 64 && forall i :: 0 <= i < |s| ==> IsWordChar(s[i]) || s[i] in {'.', '_', '-'}
    ensures IsJobId(s) <==> IsNodeId(s)
  {
    hide IsWordChar;
    forall i | 0 <= i < |s| ensures IsAlnum(s[i]) <==> IsWordChar(s[i]) { AlnumExactly(s[i]); }
  }

  lemma IdempotencyKeyExactly(s: string)
    ensures IsIdempotencyKey(s) <==>
              1 <= |s| <= 128 && forall i :: 0 <= i < |s| ==> IsWordChar(s[i]) || s[i] in {'.', '_', ':', '-'}
  {
    hide IsWordChar;
    forall i | 0 <= i < |s| ensures IsAlnum(s[i]) <==> IsWordChar(s[i]) { AlnumExactly(s[i]); }
  }

  lemma HeaderTokenExactly(s: string)
    ensures IsHeaderToken(s) <==> 1 <= |s| <= 128 && forall i :: 0 <= i < |s| ==> IsSextet(s[i]) || s[i] == '='
  {
    hide IsSextet;
    forall i | 0 <= i < |s| ensures IsSextet(s[i]) <==> IsAlnum(s[i]) || s[i] == '+' || s[i] == '/' { SextetExactly(s[i]); }
  }

  // ---------------------------------------------------------------- what encoding gives

  predicate AllSextets(s: string) {
    forall i :: 0 <= i < |s| ==> IsSextet(s[i])
  }

  lemma IsASextet(n: nat)
    requires n < 64
    ensures IsSextet(Sextet(n))
  {
  }

  lemma GroupShape(x: Byte, y: Byte, z: Byte)
    ensures |Group(x, y, z)| == 4 && AllSextets(Group(x, y, z))
  {
    hide IsSextet, Sextet;
    IsASextet(x / 4);
    IsASextet(x % 4 * 16 + y / 16);
    IsASextet(y % 16 * 4 + z / 64);
    IsASextet(z % 64);
  }

  predicate IsPad(pad: string) {
    pad == "" || pad == "=" || pad == "=="
  }

  /** An encoding is alphabet characters and then its padding. */
  lemma {:induction false} EncodeShape(b: Bytes) returns (body: string, pad: string)
    ensures Encode(b) == body + pad && AllSextets(body) && IsPad(pad) && (b != [] ==> body != "")
    decreases |b|
  {
    hide IsSextet, Group;
    if b == [] {
      body, pad := "", "";
    } else if |b| == 1 {
      GroupShape(b[0], 0, 0);
      body, pad := Group(b[0], 0, 0)[..2], "==";
    } else if |b| == 2 {
      GroupShape(b[0], b[1], 0);
      body, pad := Group(b[0], b[1], 0)[..3], "=";
    } else {
      GroupShape(b[0], b[1], b[2]);
      var rest;
      rest, pad := EncodeShape(b[3..]);
      body := Group(b[0], b[1], b[2]) + rest;
      assert Encode(b) == body + pad;
    }
  }

  /** Four characters for every three bytes begun. */
  lemma {:induction false} EncodeLength(b: Bytes)
    ensures |Encode(b)| == (|b| + 2) / 3 * 4
    decreases |b|
  {
    hide Group;
    if |b| == 1 {
      GroupShape(b[0], 0, 0);
    } else if |b| == 2 {
      GroupShape(b[0], b[1], 0);
    } else if |b| > 2 {
      GroupShape(b[0], b[1], b[2]);
      EncodeLength(b[3..]);
    }
  }

  /** Up to 96 bytes encode to a header token. */
  lemma EncodedIsToken(b: Bytes)
    requires 1 <= |b| <= 96
    ensures IsHeaderToken(Encode(b))
  {
    hide IsHeaderToken, IsSextet, Encode;
    var body, pad := EncodeShape(b);
    EncodeLength(b);
    HeaderTokenExactly(body + pad);
  }

  lemma EncodedIsShaped(b: Bytes)
    requires b != []
    ensures Shaped(Encode(b))
  {
    hide IsSextet, Encode;
    var body, pad := EncodeShape(b);
  }
}
