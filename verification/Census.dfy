/** What the statistics count: each node heard of within ninety seconds adds itself to every figure, and no other does. */
module Census {
  import opened Base
  import opened Ordering
  import opened Store
  import opened Stats

  // ---------------------------------------------------------------- one node's share

  predicate HeardOf(rec: Node, now: nat) {
    now - rec.lastSeen <= 90_000
  }

  function Worth(rec: Node): real {
    if rec.wattage < 0.0 then 0.0 else rec.wattage
  }

  function Place(rec: Node): string {
    if rec.neighborhood == "" then "undisclosed" else rec.neighborhood
  }

  /** The report's line for a neighborhood; there is none exactly when it has no nodes. */
  ghost predicate HasLine(r: Report, name: string, n: nat, w: real) {
    && (n == 0 ==> w == 0.0)
    && (n == 0 <==> forall i :: 0 <= i < |r.hoods| ==> r.hoods[i].name != name)
    && (forall i :: 0 <= i < |r.hoods| && r.hoods[i].name == name ==> r.hoods[i] == Hood(name, n, w))
  }

  function Nodes(rec: Node, name: string): nat {
    if name == Place(rec) then 1 else 0
  }

  function Watts(rec: Node, name: string): real {
    if name == Place(rec) then Worth(rec) else 0.0
  }

  /** The second report has one node's figures more than the first. */
  ghost predicate Adds(r: Report, s: Report, rec: Node) {
    && s.nodesAlive == r.nodesAlive + 1
    && s.watts == r.watts + Worth(rec)
    && s.wattsMeasured == r.wattsMeasured + (if rec.measured then Worth(rec) else 0.0)
    && forall name, n: nat, w :: HasLine(r, name, n, w) ==> HasLine(s, name, n + Nodes(rec, name), w + Watts(rec, name))
  }

  /** Two reports have the same figures. */
  ghost predicate Same(r: Report, s: Report) {
    && s.nodesAlive == r.nodesAlive && s.watts == r.watts && s.wattsMeasured == r.wattsMeasured
    && forall name, n: nat, w :: HasLine(r, name, n, w) ==> HasLine(s, name, n, w)
  }

  // ---------------------------------------------------------------- folds over joined lists

  lemma {:induction false} SumJoins(a: seq<Node>, b: seq<Node>)
    ensures Sum(a + b) == Sum(a) + Sum(b)
    decreases |b|
  {
    if b == [] {
      assert a + b == a;
    } else {
      assert (a + b)[..|a + b| - 1] == a + b[..|b| - 1];
      SumJoins(a, b[..|b| - 1]);
    }
  }

  lemma {:induction false} MeteredJoins(a: seq<Node>, b: seq<Node>)
    ensures Metered(a + b) == Metered(a) + Metered(b)
    decreases |b|
  {
    if b == [] {
      assert a + b == a;
    } else {
      assert (a + b)[..|a + b| - 1] == a + b[..|b| - 1];
      MeteredJoins(a, b[..|b| - 1]);
    }
  }

  lemma {:induction false} InJoins(a: seq<Node>, b: seq<Node>, name: string)
    ensures In(a + b, name) == In(a, name) + In(b, name)
    decreases |b|
  {
    if b == [] {
      assert a + b == a;
    } else {
      assert (a + b)[..|a + b| - 1] == a + b[..|b| - 1];
      InJoins(a, b[..|b| - 1], name);
    }
  }

  lemma Alone(rec: Node, name: string)
    ensures Sum([rec]) == Worth(rec)
    ensures Metered([rec]) == if rec.measured then [rec] else []
    ensures In([rec], name) == if name == Place(rec) then [rec] else []
  {
    assert [rec][..0] == [];
  }

  /** A record in the middle of a list adds its own share. */
  lemma InsertAdds(a: seq<Node>, rec: Node, b: seq<Node>, name: string)
    ensures Sum(a + [rec] + b) == Sum(a + b) + Worth(rec)
    ensures Sum(Metered(a + [rec] + b)) == Sum(Metered(a + b)) + (if rec.measured then Worth(rec) else 0.0)
    ensures |In(a + [rec] + b, name)| == |In(a + b, name)| + Nodes(rec, name)
    ensures Sum(In(a + [rec] + b, name)) == Sum(In(a + b, name)) + Watts(rec, name)
  {
    hide Sum, Metered, In;
    Alone(rec, name);
    Insert3(a, [rec], b, name);
    SumJoins(Metered(a), Metered(b));
    SumJoins(In(a, name), In(b, name));
    SumJoins(a, b);
    MeteredJoins(a, b);
    InJoins(a, b, name);
    NoRecords();
  }

  lemma NoRecords()
    ensures Sum([]) == 0.0
  {
  }

  lemma Insert3(a: seq<Node>, m: seq<Node>, b: seq<Node>, name: string)
    ensures Sum(a + m + b) == Sum(a) + Sum(m) + Sum(b)
    ensures Sum(Metered(a + m + b)) == Sum(Metered(a)) + Sum(Metered(m)) + Sum(Metered(b))
    ensures In(a + m + b, name) == In(a, name) + In(m, name) + In(b, name)
    ensures Sum(In(a + m + b, name)) == Sum(In(a, name)) + Sum(In(m, name)) + Sum(In(b, name))
  {
    hide Sum, Metered, In;
    SumJoins(a + m, b);
    SumJoins(a, m);
    MeteredJoins(a + m, b);
    MeteredJoins(a, m);
    SumJoins(Metered(a) + Metered(m), Metered(b));
    SumJoins(Metered(a), Metered(m));
    InJoins(a + m, b, name);
    InJoins(a, m, name);
    SumJoins(In(a, name) + In(m, name), In(b, name));
    SumJoins(In(a, name), In(m, name));
  }

  // ---------------------------------------------------------------- reports

  lemma {:induction false} InNames(recs: seq<Node>, name: string)
    ensures In(recs, name) == [] <==> name !in HoodNames(recs)
    decreases |recs|
  {
    if recs != [] {
      var (rest, last) := (recs[..|recs| - 1], recs[|recs| - 1]);
      InNames(rest, name);
      assert recs == rest + [last];
      assert HoodNames(recs) == HoodNames(rest) + {HoodName(last)} by {
        forall x ensures x in HoodNames(recs) <==> x in HoodNames(rest) + {HoodName(last)} {
          if x in HoodNames(rest) {
            var i :| 0 <= i < |rest| && HoodName(rest[i]) == x;
            assert recs[i] == rest[i];
          }
        }
      }
    }
  }

  /** The line a fold has for a neighborhood, and no other figures fit it. */
  lemma LineIsFold(r: Report, recs: seq<Node>, name: string)
    requires Totals(r, recs)
    ensures HasLine(r, name, |In(recs, name)|, Sum(In(recs, name)))
    ensures forall n: nat, w :: HasLine(r, name, n, w) ==> n == |In(recs, name)| && w == Sum(In(recs, name))
  {
    hide In, Sum, HoodNames, TextLess;
    InNames(recs, name);
    NoRecords();
    if name in HoodNames(recs) {
      var i :| 0 <= i < |r.hoods| && r.hoods[i].name == name;
      assert Filed(r.hoods[i], recs);
    } else {
      forall i | 0 <= i < |r.hoods| ensures r.hoods[i].name != name { assert Filed(r.hoods[i], recs); }
    }
  }

  lemma TotalsAdd(r: Report, s: Report, a: seq<Node>, rec: Node, b: seq<Node>)
    requires Totals(r, a + b) && Totals(s, a + [rec] + b)
    ensures Adds(r, s, rec)
  {
    hide In, Sum, Metered, HasLine, Worth, Nodes, Watts, Totals;
    TotalsFigures(r, a + b);
    TotalsFigures(s, a + [rec] + b);
    InsertAdds(a, rec, b, "");
    forall name, n: nat, w | HasLine(r, name, n, w)
      ensures HasLine(s, name, n + Nodes(rec, name), w + Watts(rec, name))
    {
      LineIsFold(r, a + b, name);
      LineIsFold(s, a + [rec] + b, name);
      InsertAdds(a, rec, b, name);
    }
  }

  lemma TotalsFigures(r: Report, recs: seq<Node>)
    requires Totals(r, recs)
    ensures r.nodesAlive == |recs| && r.watts == Sum(recs) && r.wattsMeasured == Sum(Metered(recs))
  {
  }

  lemma TotalsSame(r: Report, s: Report, recs: seq<Node>)
    requires Totals(r, recs) && Totals(s, recs)
    ensures Same(r, s)
  {
    hide In, Sum, Metered, HasLine, Worth, Nodes, Watts, Totals;
    TotalsFigures(r, recs);
    TotalsFigures(s, recs);
    forall name, n: nat, w | HasLine(r, name, n, w) ensures HasLine(s, name, n, w) {
      LineIsFold(r, recs, name);
      LineIsFold(s, recs, name);
    }
  }

  // ---------------------------------------------------------------- tables

  lemma WithoutOne<T(!new)>(q: seq<T>, s: set<T>, lt: (T, T) -> bool, i: nat) returns (p: seq<T>)
    requires TotalOn(s, lt) && Lists(q, s, lt) && i < |q|
    ensures p == q[..i] + q[i + 1..] && Lists(p, s - {q[i]}, lt)
  {
    p := q[..i] + q[i + 1..];
    forall x ensures x in s - {q[i]} <==> x in p {
      if x in s - {q[i]} {
        var j :| 0 <= j < |q| && q[j] == x;
        assert x == if j < i then p[j] else p[j - 1];
      }
      if x in p {
        var j :| 0 <= j < |p| && p[j] == x;
        var k := if j < i then j else j + 1;
        assert x == q[k];
        ListedOnce(q, s, lt, Min(i, k), if i < k then k else i);
      }
    }
  }

  /** One more name goes in at one place of the sorted list. */
  lemma SortedInsert(s: set<string>, id: string) returns (i: nat)
    requires id !in s
    ensures i <= |SortedText(s)| && SortedText(s + {id}) == SortedText(s)[..i] + [id] + SortedText(s)[i..]
  {
    hide TextLess, SortedText, TotalOn, Lists;
    var all := s + {id};
    var q := SortedText(all);
    SortedTextLists(all);
    SortedTextLists(s);
    TextTotal(all);
    TextTotal(s);
    i := InListing(q, all, id);
    var p := WithoutOne(q, all, TextLess, i);
    assert all - {id} == s;
    ListingUnique(p, SortedText(s), s, TextLess);
  }

  lemma InListing(q: seq<string>, s: set<string>, id: string) returns (i: nat)
    requires Lists(q, s, TextLess) && id in s
    ensures i < |q| && q[i] == id
  {
    hide TextLess;
    i :| 0 <= i < |q| && q[i] == id;
  }

  /** The alive records of a table with one node more. */
  lemma RecordsWithOne(nodes: map<string, Node>, id: string, rec: Node, ids: seq<string>, i: nat) returns (a: seq<Node>, b: seq<Node>)
    requires id !in nodes && (forall j :: 0 <= j < |ids| ==> ids[j] in nodes) && i <= |ids|
    ensures RecordsOf(nodes, ids) == a + b
    ensures var more := ids[..i] + [id] + ids[i..];
            (forall j :: 0 <= j < |more| ==> more[j] in nodes[id := rec]) && RecordsOf(nodes[id := rec], more) == a + [rec] + b
  {
    a, b := RecordsOf(nodes, ids[..i]), RecordsOf(nodes, ids[i..]);
  }

  /**
   * Reports on a table and on the same table with one node more, neither of them cut short: the later one has that
   * node's share more, to the unit on every figure and line, if it was heard of in time, and otherwise the same figures.
   */
  lemma OneMoreNode(r: Report, s: Report, nodes: map<string, Node>, id: string, rec: Node, now: nat)
    requires id !in nodes && Covers(r, nodes, now) && Covers(s, nodes[id := rec], now) && !r.partial && !s.partial
    ensures if HeardOf(rec, now) then Adds(r, s, rec) else Same(r, s)
  {
    hide Totals, Adds, Same, SortedText, RecordsOf;
    var (before, after) := (AliveIds(nodes, now), AliveIds(nodes[id := rec], now));
    var ids := SortedText(before);
    if HeardOf(rec, now) {
      assert after == before + {id};
      var i := SortedInsert(before, id);
      var a, b := RecordsWithOne(nodes, id, rec, ids, i);
      TotalsAdd(r, s, a, rec, b);
    } else {
      assert after == before;
      SameRecords(nodes, id, rec, ids);
      TotalsSame(r, s, RecordsOf(nodes, ids));
    }
  }

  lemma SameRecords(nodes: map<string, Node>, id: string, rec: Node, ids: seq<string>)
    requires id !in nodes && forall j :: 0 <= j < |ids| ==> ids[j] in nodes
    ensures RecordsOf(nodes[id := rec], ids) == RecordsOf(nodes, ids)
  {
  }

  /** An empty grid counts nothing. */
  lemma NoNodes(r: Report, now: nat)
    requires Covers(r, map[], now)
    ensures !r.partial && r.nodesAlive == 0 && r.watts == 0.0 && r.wattsMeasured == 0.0 && r.hoods == []
  {
    hide SortedText;
    assert AliveIds(map[], now) == {};
    assert RecordsOf(map[], SortedText(AliveIds(map[], now))) == [];
    assert HoodNames([]) == {};
  }
}
