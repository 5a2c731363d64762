/** The canonical byte string that every signed request is signed over. */
module Signing {
  import opened Base

  type Bytes = seq<Byte>

  // ---------------------------------------------------------------- UTF-8

  /** The UTF-8 bytes of one character (section 3 of RFC 3629). */
  function Utf8Char(c: char): Bytes {
    var n := c as int;
    if n < 0x80 then [n]
    else if n < 0x800 then [0xc0 + n / 64, 0x80 + n % 64]
    else if n < 0x1_0000 then [0xe0 + n / 4096, 0x80 + n / 64 % 64, 0x80 + n % 64]
    else [0xf0 + n / 262144, 0x80 + n / 4096 % 64, 0x80 + n / 64 % 64, 0x80 + n % 64]
  }

  function Utf8(s: string): Bytes {
    if s == "" then [] else Utf8Char(s[0]) + Utf8(s[1..])
  }

  /** The character a well-formed byte string starts with. */
  function FirstCode(b: Bytes): int
    requires b != []
  {
    if b[0] < 0x80 || |b| < 2 then b[0]
    else if b[0] < 0xe0 || |b| < 3 then (b[0] as int - 0xc0) * 64 + (b[1] as int - 0x80)
    else if b[0] < 0xf0 || |b| < 4 then
      (b[0] as int - 0xe0) * 4096 + (b[1] as int - 0x80) * 64 + (b[2] as int - 0x80)
    else
      (b[0] as int - 0xf0) * 262144 + (b[1] as int - 0x80) * 4096 + (b[2] as int - 0x80) * 64 + (b[3] as int - 0x80)
  }

  lemma DivSteps(n: nat)
    ensures n / 64 / 64 == n / 4096 && n / 4096 / 64 == n / 262144
  {
  }

  lemma FirstCodeOf(c: char, rest: Bytes)
    ensures FirstCode(Utf8Char(c) + rest) == c as int
  {
    var n := c as int;
    var (p, q, r) := (n / 64, n / 4096, n / 262144);
    DivSteps(n);
    assert n == p * 64 + n % 64 && p == q * 64 + p % 64 && q == r * 64 + q % 64;
  }

  lemma {:induction false} Utf8Injective(s: string, t: string)
    requires Utf8(s) == Utf8(t)
    ensures s == t
    decreases |s|
  {
    if s != "" && t != "" {
      FirstCodeOf(s[0], Utf8(s[1..]));
      FirstCodeOf(t[0], Utf8(t[1..]));
      assert s[0] == t[0];
      var k := |Utf8Char(s[0])|;
      assert Utf8(s)[k..] == Utf8(s[1..]) && Utf8(t)[k..] == Utf8(t[1..]);
      Utf8Injective(s[1..], t[1..]);
      assert s == [s[0]] + s[1..] && t == [t[0]] + t[1..];
    }
  }

  lemma {:induction false} Utf8Append(s: string, t: string)
    ensures Utf8(s + t) == Utf8(s) + Utf8(t)
    decreases |s|
  {
    if s == "" {
      assert s + t == t;
    } else {
      assert (s + t)[1..] == s[1..] + t;
      Utf8Append(s[1..], t);
    }
  }

  /** Only a newline character encodes to a newline byte. */
  lemma {:induction false} Utf8NoNewline(s: string)
    requires '\n' !in s
    ensures 10 !in Utf8(s)
    decreases |s|
  {
    if s != "" {
      Utf8NoNewline(s[1..]);
      assert s[0] in s && 10 !in Utf8Char(s[0]);
    }
  }

  // ---------------------------------------------------------------- the signed message

  const PROTOCOL_PREFIX: string := "nycc-grid-v1|"
  const SIGN_DOMAIN: string := "nycc-grid-v1"

  /** A field, the newline that closes it, and what follows. */
  function Field(s: string, rest: string): string {
    s + "\n" + rest
  }

  function Head(host: string, verb: string, path: string, timestamp: string, nonce: string): string {
    Field(host, Field(verb, Field(path, Field(timestamp, Field(nonce, "")))))
  }

  /** `buildSignedMessage`: a framed head, then the body bytes as received. */
  function SignedMessage(host: string, verb: string, path: string, timestamp: string, nonce: string, body: Bytes): Bytes {
    Utf8(PROTOCOL_PREFIX + Head(host, verb, path, timestamp, nonce)) + body
  }

  /** ASCII upper-casing, which is all `method.upper()` does to a request method. */
  function Upper(s: string): string {
    seq(|s|, i requires 0 <= i < |s| => if 'a' <= s[i] <= 'z' then (s[i] as int - 32) as char else s[i])
  }

  /** `signing_message`, the Python builder. */
  function PySigningMessage(host: string, verb: string, path: string, timestamp: string, nonce: string, body: Bytes): Bytes {
    Utf8(SIGN_DOMAIN + "|" + Head(host, Upper(verb), path, timestamp, nonce)) + body
  }

  predicate NoNewline(s: string) {
    '\n' !in s
  }

  /** One line of the frame and what follows it. */
  function Line(field: string, rest: Bytes): Bytes {
    Utf8(field) + [10] + rest
  }

  lemma LineInjective(a: string, x: Bytes, b: string, y: Bytes)
    requires NoNewline(a) && NoNewline(b) && Line(a, x) == Line(b, y)
    ensures a == b && x == y
  {
    Utf8NoNewline(a);
    Utf8NoNewline(b);
    var (p, q, s) := (Utf8(a), Utf8(b), Line(a, x));
    assert s[|p|] == 10 && s[|q|] == 10;
    assert forall i :: 0 <= i < |p| ==> s[i] == p[i] && s[i] != 10;
    assert forall i :: 0 <= i < |q| ==> s[i] == q[i] && s[i] != 10;
    assert p == s[..|p|] && q == s[..|q|];
    assert x == s[|p| + 1..] && y == s[|q| + 1..];
    Utf8Injective(a, b);
  }

  lemma MessageLines(host: string, verb: string, path: string, timestamp: string, nonce: string, body: Bytes)
    ensures SignedMessage(host, verb, path, timestamp, nonce, body)
         == Utf8(PROTOCOL_PREFIX) + Line(host, Line(verb, Line(path, Line(timestamp, Line(nonce, body)))))
  {
    var p4 := Field(nonce, "");
    var p3 := Field(timestamp, p4);
    var p2 := Field(path, p3);
    var p1 := Field(verb, p2);
    Utf8Append(PROTOCOL_PREFIX, Field(host, p1));
    LineOf(nonce, "", body);
    LineOf(timestamp, p4, body);
    LineOf(path, p3, body);
    LineOf(verb, p2, body);
    LineOf(host, p1, body);
    assert Utf8("") + body == body;
    AppendAssociative(Utf8(PROTOCOL_PREFIX), Utf8(Field(host, p1)), body);
  }

  lemma AppendAssociative(a: Bytes, b: Bytes, c: Bytes)
    ensures a + b + c == a + (b + c)
  {
  }

  lemma LineOf(field: string, rest: string, body: Bytes)
    ensures Utf8(Field(field, rest)) + body == Line(field, Utf8(rest) + body)
  {
    Utf8Append(field + "\n", rest);
    Utf8Append(field, "\n");
    NewlineByte();
    AppendAssociative(Utf8(field) + [10], Utf8(rest), body);
  }

  lemma NewlineByte()
    ensures Utf8("\n") == [10]
  {
    assert "\n"[1..] == "";
  }

  /** Equal signed bytes mean an equal request: no field can be moved into another. */
  lemma SignedMessageInjective(
      host: string, verb: string, path: string, timestamp: string, nonce: string, body: Bytes,
      host': string, verb': string, path': string, timestamp': string, nonce': string, body': Bytes)
    requires NoNewline(host) && NoNewline(verb) && NoNewline(path) && NoNewline(timestamp) && NoNewline(nonce)
    requires NoNewline(host') && NoNewline(verb') && NoNewline(path') && NoNewline(timestamp') && NoNewline(nonce')
    requires SignedMessage(host, verb, path, timestamp, nonce, body)
          == SignedMessage(host', verb', path', timestamp', nonce', body')
    ensures host == host' && verb == verb' && path == path' && timestamp == timestamp' && nonce == nonce'
    ensures body == body'
  {
    MessageLines(host, verb, path, timestamp, nonce, body);
    MessageLines(host', verb', path', timestamp', nonce', body');
    var (l5, m5) := (Line(nonce, body), Line(nonce', body'));
    var (l4, m4) := (Line(timestamp, l5), Line(timestamp', m5));
    var (l3, m3) := (Line(path, l4), Line(path', m4));
    var (l2, m2) := (Line(verb, l3), Line(verb', m3));
    var (l1, m1) := (Line(host, l2), Line(host', m2));
    var k := |Utf8(PROTOCOL_PREFIX)|;
    assert (Utf8(PROTOCOL_PREFIX) + l1)[k..] == l1 && (Utf8(PROTOCOL_PREFIX) + m1)[k..] == m1;
    LineInjective(host, l2, host', m2);
    LineInjective(verb, l3, verb', m3);
    LineInjective(path, l4, path', m4);
    LineInjective(timestamp, l5, timestamp', m5);
    LineInjective(nonce, body, nonce', body');
  }

  /** Without the newline rule the frame is ambiguous: a line can move from one field to the next. */
  lemma NewlineMovesABoundary(body: Bytes)
    ensures SignedMessage("a\nb", "c", "d", "1", "n", body) == SignedMessage("a", "b", "c\nd", "1", "n", body)
  {
    var tail := Field("1", Field("n", ""));
    assert Field("a\nb", Field("c", Field("d", tail))) == Field("a", Field("b", Field("c\nd", tail)));
  }

  /** The two builders sign the same bytes exactly when the method is already upper case. */
  lemma BuildersAgree(host: string, verb: string, path: string, timestamp: string, nonce: string, body: Bytes)
    requires NoNewline(host) && NoNewline(verb) && NoNewline(path) && NoNewline(timestamp) && NoNewline(nonce)
    ensures Upper(verb) == verb <==>
            PySigningMessage(host, verb, path, timestamp, nonce, body)
              == SignedMessage(host, verb, path, timestamp, nonce, body)
  {
    assert SIGN_DOMAIN + "|" == PROTOCOL_PREFIX;
    assert PySigningMessage(host, verb, path, timestamp, nonce, body)
        == SignedMessage(host, Upper(verb), path, timestamp, nonce, body);
    if SignedMessage(host, Upper(verb), path, timestamp, nonce, body)
        == SignedMessage(host, verb, path, timestamp, nonce, body) {
      assert forall i :: 0 <= i < |verb| ==> Upper(verb)[i] != '\n';
      SignedMessageInjective(host, Upper(verb), path, timestamp, nonce, body,
                             host, verb, path, timestamp, nonce, body);
    }
  }

  // ---------------------------------------------------------------- concatBytes

  function Concat(parts: seq<Bytes>): Bytes {
    if parts == [] then [] else parts[0] + Concat(parts[1..])
  }

  lemma {:induction false} ConcatSnoc(parts: seq<Bytes>, p: Bytes)
    ensures Concat(parts + [p]) == Concat(parts) + p
    decreases |parts|
  {
    if parts == [] {
      assert parts + [p] == [p] && Concat([p]) == p + Concat([]);
    } else {
      assert (parts + [p])[1..] == parts[1..] + [p];
      ConcatSnoc(parts[1..], p);
    }
  }

  lemma {:induction false} ConcatPrefix(parts: seq<Bytes>, i: nat)
    requires i < |parts|
    ensures Concat(parts[..i + 1]) == Concat(parts[..i]) + parts[i]
    ensures |Concat(parts[..i + 1])| <= |Concat(parts)|
  {
    assert parts[..i + 1] == parts[..i] + [parts[i]];
    ConcatSnoc(parts[..i], parts[i]);
    ConcatSplit(parts, i + 1);
  }

  lemma {:induction false} ConcatSplit(parts: seq<Bytes>, i: nat)
    requires i <= |parts|
    ensures Concat(parts) == Concat(parts[..i]) + Concat(parts[i..])
    decreases i
  {
    if i == 0 {
      assert parts[..0] == [] && parts[0..] == parts;
    } else {
      ConcatSplit(parts[1..], i - 1);
      assert parts[1..][..i - 1] == parts[..i][1..] && parts[1..][i - 1..] == parts[i..];
    }
  }

  /** Two passes over the parts: the total length, then the copies into one fixed buffer. */
  method ConcatBytes(parts: seq<Bytes>) returns (out: array<Byte>)
    ensures fresh(out) && out[..] == Concat(parts)
  {
    assert Concat([]) == [];
    hide Concat;
    var n := 0;
    for i := 0 to |parts|
      invariant n == |Concat(parts[..i])|
    {
      ConcatPrefix(parts, i);
      n := n + |parts[i]|;
    }
    assert parts[..|parts|] == parts;
    out := new Byte[n](_ => 0);
    var off := 0;
    for i := 0 to |parts|
      invariant off == |Concat(parts[..i])| <= n
      invariant out[..off] == Concat(parts[..i])
    {
      ConcatPrefix(parts, i);
      for j := 0 to |parts[i]|
        invariant out[..off] == Concat(parts[..i])
        invariant out[off..off + j] == parts[i][..j]
      {
        out[off + j] := parts[i][j];
        assert out[off..off + j + 1] == out[off..off + j] + [parts[i][j]];
      }
      assert out[..off + |parts[i]|] == out[..off] + out[off..off + |parts[i]|];
      off := off + |parts[i]|;
    }
    assert out[..] == out[..off];
  }
}
