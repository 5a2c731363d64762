/** Decimal numerals: printing, reading, zero padding, and how padding makes text order numeric. */
module Decimal {
  import opened Base
  import opened Ordering

  predicate IsDigit(c: char) {
    '0' <= c <= '9'
  }

  predicate AllDigits(s: string) {
    forall i :: 0 <= i < |s| ==> IsDigit(s[i])
  }

  function DigitChar(d: nat): (c: char)
    requires d < 10
    ensures IsDigit(c) && c as int == '0' as int + d
  {
    ('0' as int + d) as char
  }

  function DigitValue(c: char): (d: nat)
    requires IsDigit(c)
    ensures d < 10 && DigitChar(d) == c
  {
    c as int - '0' as int
  }

  /** `String(n)` for a non-negative integer. */
  function Print(n: nat): (s: string)
    ensures AllDigits(s) && s != ""
  {
    if n < 10 then [DigitChar(n)] else Print(n / 10) + [DigitChar(n % 10)]
  }

  /** `Number(s)` for a string of digits. */
  function Read(s: string): nat
    requires AllDigits(s)
  {
    if s == "" then 0 else 10 * Read(s[..|s| - 1]) + DigitValue(s[|s| - 1])
  }

  lemma ReadSnoc(s: string, c: char)
    requires AllDigits(s) && IsDigit(c)
    ensures AllDigits(s + [c]) && Read(s + [c]) == 10 * Read(s) + DigitValue(c)
  {
    assert (s + [c])[..|s|] == s;
  }

  lemma {:induction false} ReadPrint(n: nat)
    ensures Read(Print(n)) == n
  {
    if n < 10 {
      ReadSnoc("", DigitChar(n));
      assert "" + [DigitChar(n)] == [DigitChar(n)];
    } else {
      ReadPrint(n / 10);
      ReadSnoc(Print(n / 10), DigitChar(n % 10));
    }
  }

  function Power10(k: nat): (p: nat)
    ensures p > 0
  {
    if k == 0 then 1 else 10 * Power10(k - 1)
  }

  lemma {:induction false} ReadBound(s: string)
    requires AllDigits(s)
    ensures Read(s) < Power10(|s|)
    decreases |s|
  {
    if s != "" { ReadBound(s[..|s| - 1]); }
  }

  lemma PowerZero()
    ensures Power10(0) == 1
  {
  }

  /** The first digits of a numeral are its value divided by a power of ten. */
  lemma {:induction false} ReadPrefix(s: string, i: nat)
    requires AllDigits(s) && i <= |s|
    ensures Read(s[..i]) == Read(s) / Power10(|s| - i)
    decreases |s|
  {
    if i == |s| {
      assert s[..i] == s;
    } else {
      var (front, p) := (s[..|s| - 1], Power10(|s| - 1 - i));
      ReadPrefix(front, i);
      assert front[..i] == s[..i];
      DivideTwice(Read(front), DigitValue(s[|s| - 1]), p);
    }
  }

  lemma DivideTwice(n: nat, d: nat, p: nat)
    requires d < 10 && p > 0
    ensures (10 * n + d) / (10 * p) == n / p
  {
    var (q, r) := (n / p, n % p);
    assert n == q * p + r;
    assert 10 * n + d == q * (10 * p) + (10 * r + d);
    Quotient(10 * n + d, 10 * p, q, 10 * r + d);
  }

  lemma Quotient(n: nat, p: nat, q: nat, r: nat)
    requires p > 0 && n == q * p + r && r < p
    ensures n / p == q
  {
    var e := n / p;
    assert n == e * p + n % p;
    Multiples(e + 1, q, p);
    Multiples(q + 1, e, p);
  }

  lemma Multiples(a: nat, b: nat, p: nat)
    ensures a <= b ==> a * p <= b * p
  {
  }

  lemma {:induction false} PrintLength(n: nat, k: nat)
    requires k > 0 && n < Power10(k)
    ensures |Print(n)| <= k
  {
    if n >= 10 { PrintLength(n / 10, k - 1); }
  }

  /** `s.padStart(width, '0')`. */
  function PadStart(s: string, width: nat): (p: string)
    ensures |p| == if |s| < width then width else |s|
  {
    if |s| < width then seq(width - |s|, _ => '0') + s else s
  }

  lemma {:induction false} ReadZeros(k: nat, s: string)
    requires AllDigits(s)
    ensures AllDigits(seq(k, _ => '0') + s) && Read(seq(k, _ => '0') + s) == Read(s)
    decreases |s|, k
  {
    var z := seq(k, _ => '0');
    if s == "" {
      assert z + s == z;
      if k > 0 {
        var y := seq(k - 1, _ => '0');
        ReadZeros(k - 1, "");
        assert y + "" == y && z == y + ['0'];
        ReadSnoc(y, '0');
      }
    } else {
      ReadZeros(k, s[..|s| - 1]);
      assert z + s == (z + s[..|s| - 1]) + [s[|s| - 1]];
      ReadSnoc(z + s[..|s| - 1], s[|s| - 1]);
    }
  }

  lemma ReadPad(n: nat, width: nat)
    ensures AllDigits(PadStart(Print(n), width)) && Read(PadStart(Print(n), width)) == n
  {
    ReadPrint(n);
    if |Print(n)| < width { ReadZeros(width - |Print(n)|, Print(n)); }
  }

  /** Between digit strings of one length, text order is numeric order. */
  lemma {:induction false} TextOrderIsNumeric(a: string, b: string)
    requires AllDigits(a) && AllDigits(b) && |a| == |b|
    ensures TextLess(a, b) <==> Read(a) < Read(b)
    decreases |a|
  {
    if a == "" {
      assert !TextLess(a, b);
    } else {
      var n := |a| - 1;
      TextOrderIsNumeric(a[..n], b[..n]);
      assert Codes(a) == Codes(a[..n]) + [a[n] as int] && Codes(b) == Codes(b[..n]) + [b[n] as int];
      LexBlocks(Codes(a[..n]), Codes(b[..n]), [a[n] as int], [b[n] as int]);
      if Codes(a[..n]) == Codes(b[..n]) {
        CodesInjective(a[..n], b[..n]);
      } else if Read(a[..n]) == Read(b[..n]) {
        LexConnected(Codes(a[..n]), Codes(b[..n]));
        TextOrderIsNumeric(b[..n], a[..n]);
      }
    }
  }

  // ---------------------------------------------------------------- numerals

  function Zeros(k: nat): (z: string)
    ensures |z| == k && forall i :: 0 <= i < k ==> z[i] == '0'
  {
    seq(k, _ => '0')
  }

  /** The text is the decimal numeral of `t`, perhaps with zeros in front. */
  ghost predicate Numeral(s: string, t: nat) {
    exists zeros: nat :: s == Zeros(zeros) + Print(t)
  }

  lemma {:induction false} EveryDigitStringIsANumeral(s: string) returns (zeros: nat)
    requires s != "" && AllDigits(s)
    ensures s == Zeros(zeros) + Print(Read(s))
    decreases |s|
  {
    var (front, d) := (s[..|s| - 1], DigitValue(s[|s| - 1]));
    assert s == front + [s[|s| - 1]];
    if front == "" {
      zeros := 0;
      assert Read(front) == 0;
      assert Zeros(0) + [s[0]] == s;
    } else {
      var k := EveryDigitStringIsANumeral(front);
      var m := Read(front);
      if m == 0 {
        zeros := k + 1;
        ZerosThenZero(k);
        assert Print(0) == "0";
      } else {
        zeros := k;
        assert Print(10 * m + d) == Print(m) + [DigitChar(d)];
        assert Zeros(k) + (Print(m) + [s[|s| - 1]]) == (Zeros(k) + Print(m)) + [s[|s| - 1]];
      }
    }
  }

  lemma ZerosThenZero(k: nat)
    ensures Zeros(k) + "0" == Zeros(k + 1)
  {
  }

  lemma NumeralReads(s: string, t: nat)
    requires Numeral(s, t)
    ensures s != "" && AllDigits(s) && Read(s) == t
  {
    hide Read;
    var zeros: nat :| s == Zeros(zeros) + Print(t);
    assert Zeros(zeros) == seq(zeros, _ => '0');
    ReadZeros(zeros, Print(t));
    ReadPrint(t);
  }
}
