/** Strict total orders, the sorted listing of a finite set, and lexicographic order. */
module Ordering {
  import opened Base

  ghost predicate TotalOn<T(!new)>(s: set<T>, lt: (T, T) -> bool) {
    && (forall x :: x in s ==> !lt(x, x))
    && (forall x, y :: x in s && y in s && x != y ==> lt(x, y) || lt(y, x))
    && (forall x, y, z :: x in s && y in s && z in s && lt(x, y) && lt(y, z) ==> lt(x, z))
  }

  ghost predicate Sorted<T(!new)>(q: seq<T>, lt: (T, T) -> bool) {
    forall i, j :: 0 <= i < j < |q| ==> lt(q[i], q[j])
  }

  ghost predicate Lists<T(!new)>(q: seq<T>, s: set<T>, lt: (T, T) -> bool) {
    Sorted(q, lt) && forall x :: x in s <==> x in q
  }

  lemma LeastExists<T(!new)>(s: set<T>, lt: (T, T) -> bool) returns (m: T)
    requires s != {} && TotalOn(s, lt)
    ensures m in s && forall y :: y in s ==> y == m || lt(m, y)
  {
    m :| m in s;
    if s != {m} {
      var rest := s - {m};
      var n := LeastExists(rest, lt);
      if !lt(m, n) {
        m := n;
      } else {
        forall y | y in s ensures y == m || lt(m, y) {
          assert y == m || y in rest;
        }
      }
    }
  }

  /** The elements of `s` in increasing order. */
  function SortedSeq<T(!new, ==)>(s: set<T>, lt: (T, T) -> bool): (q: seq<T>)
    requires TotalOn(s, lt)
    ensures Lists(q, s, lt)
    ensures |q| == |s|
    decreases |s|
  {
    if s == {} then [] else
      assert exists m :: m in s && forall y :: y in s ==> y == m || lt(m, y) by {
        var m := LeastExists(s, lt);
      }
      var m :| m in s && forall y :: y in s ==> y == m || lt(m, y);
      var rest := SortedSeq(s - {m}, lt);
      ConsLists(m, rest, s, lt);
      [m] + rest
  }

  lemma ConsLists<T(!new)>(m: T, rest: seq<T>, s: set<T>, lt: (T, T) -> bool)
    requires m in s && (forall y :: y in s ==> y == m || lt(m, y))
    requires Lists(rest, s - {m}, lt)
    ensures Lists([m] + rest, s, lt)
  {
    forall i, j | 0 <= i < j < |rest| + 1
      ensures lt(([m] + rest)[i], ([m] + rest)[j])
    {
      assert rest[j - 1] in s - {m};
    }
  }

  /** A set has only one sorted listing. */
  lemma {:induction false} ListingUnique<T(!new)>(p: seq<T>, q: seq<T>, s: set<T>, lt: (T, T) -> bool)
    requires TotalOn(s, lt) && Lists(p, s, lt) && Lists(q, s, lt)
    ensures p == q
    decreases |p|
  {
    assert p != [] ==> p[0] in s;
    assert q != [] ==> q[0] in s;
    if p != [] {
      FirstIsLeast(p, s, lt, q[0]);
      FirstIsLeast(q, s, lt, p[0]);
      TailLists(p, s, lt);
      TailLists(q, s, lt);
      ListingUnique(p[1..], q[1..], s - {p[0]}, lt);
    }
  }

  lemma FirstIsLeast<T(!new)>(p: seq<T>, s: set<T>, lt: (T, T) -> bool, x: T)
    requires p != [] && TotalOn(s, lt) && Lists(p, s, lt) && x in s
    ensures p[0] in s && !lt(x, p[0])
  {
    var first := p[0];
    assert first in s;
    var i :| 0 <= i < |p| && p[i] == x;
    assert lt(x, first) && lt(first, x) ==> lt(x, x);
  }

  lemma TailLists<T(!new)>(p: seq<T>, s: set<T>, lt: (T, T) -> bool)
    requires p != [] && TotalOn(s, lt) && Lists(p, s, lt)
    ensures Lists(p[1..], s - {p[0]}, lt)
  {
    assert p[0] in s;
    forall x ensures x in s - {p[0]} <==> x in p[1..] {
      if x in p[1..] {
        var i :| 1 <= i < |p| && p[i] == x;
        assert lt(p[0], p[i]) && p[i] in s;
      }
      if x in s && x != p[0] {
        var i :| 0 <= i < |p| && p[i] == x;
        assert p[1..][i - 1] == x;
      }
    }
  }

  lemma ListedOnce<T(!new)>(q: seq<T>, s: set<T>, lt: (T, T) -> bool, i: nat, j: nat)
    requires TotalOn(s, lt) && Lists(q, s, lt) && i < j < |q|
    ensures q[i] != q[j]
  {
    assert q[i] in s && lt(q[i], q[j]);
  }

  /** How many members of `s` come before `x`. */
  ghost function Below<T(!new)>(s: set<T>, lt: (T, T) -> bool, x: T): set<T> {
    set y | y in s && lt(y, x)
  }

  /** An element is among the first `m` of the listing exactly when fewer than `m` elements precede it. */
  lemma PositionIsRank<T(!new)>(s: set<T>, lt: (T, T) -> bool, x: T, m: nat)
    requires TotalOn(s, lt) && x in s
    ensures x in Take(SortedSeq(s, lt), m) <==> |Below(s, lt, x)| < m
  {
    var q := SortedSeq(s, lt);
    var i :| 0 <= i < |q| && q[i] == x;
    RankAt(q, s, lt, i);
    if x in Take(q, m) {
      var j :| 0 <= j < Min(m, |q|) && q[j] == x;
      RankAt(q, s, lt, j);
    }
    assert i < m ==> Take(q, m)[i] == x;
  }

  lemma RankAt<T(!new)>(q: seq<T>, s: set<T>, lt: (T, T) -> bool, i: nat)
    requires TotalOn(s, lt) && Lists(q, s, lt) && i < |q|
    ensures |Below(s, lt, q[i])| == i
  {
    var pre := set j | 0 <= j < i :: q[j];
    assert Below(s, lt, q[i]) == pre by {
      forall y ensures y in Below(s, lt, q[i]) <==> y in pre {
        if y in s && lt(y, q[i]) {
          var j :| 0 <= j < |q| && q[j] == y;
          assert q[i] in s;
          assert lt(q[i], y) ==> lt(y, y);
          assert j < i;
        }
        if y in pre {
          var j :| 0 <= j < i && q[j] == y;
          assert lt(q[j], q[i]);
        }
      }
    }
    PrefixCount(q, s, lt, i);
  }

  lemma {:induction false} PrefixCount<T(!new)>(q: seq<T>, s: set<T>, lt: (T, T) -> bool, i: nat)
    requires TotalOn(s, lt) && Lists(q, s, lt) && i <= |q|
    ensures |set j | 0 <= j < i :: q[j]| == i
  {
    hide TotalOn, Lists;
    if i > 0 {
      PrefixCount(q, s, lt, i - 1);
      var pre := set j | 0 <= j < i - 1 :: q[j];
      forall j | 0 <= j < i - 1 ensures q[j] != q[i - 1] {
        ListedOnce(q, s, lt, j, i - 1);
      }
      assert (set j | 0 <= j < i :: q[j]) == pre + {q[i - 1]};
    }
  }

  /** Deleting an element never moves another one later in the listing. */
  lemma StaysInPrefix<T(!new)>(s: set<T>, t: set<T>, lt: (T, T) -> bool, x: T, m: nat)
    requires TotalOn(s, lt) && t <= s && x in t
    requires x in Take(SortedSeq(s, lt), m)
    ensures x in Take(SortedSeq(t, lt), m)
  {
    PositionIsRank(s, lt, x, m);
    PositionIsRank(t, lt, x, m);
    SubsetSize(Below(t, lt, x), Below(s, lt, x));
  }

  /** Adding elements that all sort after `x` does not move `x`. */
  lemma AppendKeepsPrefix<T(!new)>(s: set<T>, lt: (T, T) -> bool, y: T, x: T, m: nat)
    requires TotalOn(s + {y}, lt) && x in s && lt(x, y)
    requires x in Take(SortedSeq(s, lt), m)
    ensures x in Take(SortedSeq(s + {y}, lt), m)
  {
    PositionIsRank(s, lt, x, m);
    PositionIsRank(s + {y}, lt, x, m);
    assert Below(s + {y}, lt, x) == Below(s, lt, x) by {
      assert lt(y, x) ==> lt(x, x);
    }
  }

  lemma {:induction false} SubsetSize<T>(a: set<T>, b: set<T>)
    requires a <= b
    ensures |a| <= |b|
    ensures a != b ==> |a| < |b|
  {
    assert b == a + (b - a);
    assert |b| == |a| + |b - a|;
    if a != b { assert b - a != {}; }
  }

  // ---------------------------------------------------------------- lexicographic order

  predicate LexLess(a: seq<int>, b: seq<int>)
    decreases |a|
  {
    b != [] && (a == [] || a[0] < b[0] || (a[0] == b[0] && LexLess(a[1..], b[1..])))
  }

  lemma {:induction false} LexIrreflexive(a: seq<int>)
    ensures !LexLess(a, a)
    decreases |a|
  {
    if a != [] { LexIrreflexive(a[1..]); }
  }

  lemma {:induction false} LexConnected(a: seq<int>, b: seq<int>)
    requires a != b
    ensures LexLess(a, b) || LexLess(b, a)
    decreases |a|
  {
    if a != [] && b != [] && a[0] == b[0] {
      assert a == [a[0]] + a[1..] && b == [b[0]] + b[1..];
      LexConnected(a[1..], b[1..]);
    }
  }

  lemma {:induction false} LexTransitive(a: seq<int>, b: seq<int>, c: seq<int>)
    requires LexLess(a, b) && LexLess(b, c)
    ensures LexLess(a, c)
    decreases |a|
  {
    if a != [] && a[0] == b[0] == c[0] { LexTransitive(a[1..], b[1..], c[1..]); }
  }

  /** A common prefix does not change the comparison. */
  lemma {:induction false} LexCommonPrefix(p: seq<int>, a: seq<int>, b: seq<int>)
    ensures LexLess(p + a, p + b) <==> LexLess(a, b)
    decreases |p|
  {
    if p == [] {
      assert p + a == a && p + b == b;
    } else {
      assert (p + a)[1..] == p[1..] + a && (p + b)[1..] == p[1..] + b;
      LexCommonPrefix(p[1..], a, b);
    }
  }

  /** Blocks of one length decide the comparison before what follows them. */
  lemma {:induction false} LexBlocks(p: seq<int>, q: seq<int>, a: seq<int>, b: seq<int>)
    requires |p| == |q|
    ensures LexLess(p + a, q + b) <==> LexLess(p, q) || (p == q && LexLess(a, b))
    decreases |p|
  {
    if p == [] {
      assert p + a == a && q + b == b;
    } else {
      assert (p + a)[1..] == p[1..] + a && (q + b)[1..] == q[1..] + b;
      LexBlocks(p[1..], q[1..], a, b);
      assert p == [p[0]] + p[1..] && q == [q[0]] + q[1..];
    }
  }

  predicate TextLess(a: string, b: string) {
    LexLess(Codes(a), Codes(b))
  }

  lemma TextTotal(s: set<string>)
    ensures TotalOn(s, TextLess)
  {
    forall x | x in s ensures !TextLess(x, x) { LexIrreflexive(Codes(x)); }
    forall x, y | x in s && y in s && x != y ensures TextLess(x, y) || TextLess(y, x) {
      if Codes(x) == Codes(y) { CodesInjective(x, y); }
      LexConnected(Codes(x), Codes(y));
    }
    forall x, y, z | x in s && y in s && z in s && TextLess(x, y) && TextLess(y, z) ensures TextLess(x, z) {
      LexTransitive(Codes(x), Codes(y), Codes(z));
    }
  }

  /** Names in alphabetical order. */
  function SortedText(s: set<string>): (q: seq<string>)
    ensures |q| == |s| && forall i :: 0 <= i < |q| ==> q[i] in s
  {
    TextTotal(s);
    var q := SortedSeq(s, TextLess);
    TextFromSet(q, s);
    q
  }

  lemma TextFromSet(q: seq<string>, s: set<string>)
    requires Lists(q, s, TextLess)
    ensures forall i :: 0 <= i < |q| ==> q[i] in s
  {
  }

  lemma SortedTextLists(s: set<string>)
    ensures TotalOn(s, TextLess) && Lists(SortedText(s), s, TextLess)
  {
    TextTotal(s);
  }
}
