/** The grid statistics: a scan over pages of node records under two budgets, against a plain fold. */
module Stats {
  import opened Base
  import opened Ordering
  import opened Store
  import opened Keys
  import Handlers
  import Paging

  const STATS_PAGE: nat := 1000
  const STATS_MAX_PAGES: nat := 20
  const STATS_MAX_GETS: nat := 800

  /** One answer of `storage.list`: names, and whether a cursor leads to a further page. */
  datatype Page = Page(names: seq<string>, more: bool)

  /** What the scan reads: the pages in cursor order, the records, the counter. */
  datatype Grid = Grid(page: nat -> Page, get: string -> Option<Node>, jobsDone: Option<int>)

  datatype Hood = Hood(name: string, nodes: nat, watts: real)

  datatype Report = Report(
    nodesAlive: nat, watts: real, wattsMeasured: real, jobsDone: nat, hoods: seq<Hood>, partial: bool)

  // ---------------------------------------------------------------- the fold

  function Watt(rec: Node): real {
    if rec.wattage > 0.0 then rec.wattage else 0.0
  }

  /** The names of the first `n` pages. */
  function Listed(grid: Grid, n: nat): seq<string> {
    if n == 0 then [] else Listed(grid, n - 1) + grid.page(n - 1).names
  }

  /** The records behind some names that exist and are not stale. */
  function AliveRecords(grid: Grid, names: seq<string>, now: nat): seq<Node> {
    if names == [] then []
    else
      var rest := AliveRecords(grid, names[..|names| - 1], now);
      var rec := grid.get(names[|names| - 1]);
      if rec.Some? && Alive(rec.value, now) then rest + [rec.value] else rest
  }

  function Sum(recs: seq<Node>): real {
    if recs == [] then 0.0 else Sum(recs[..|recs| - 1]) + Watt(recs[|recs| - 1])
  }

  function Metered(recs: seq<Node>): seq<Node> {
    if recs == [] then []
    else
      var (rest, rec) := (Metered(recs[..|recs| - 1]), recs[|recs| - 1]);
      if rec.measured then rest + [rec] else rest
  }

  /** The records of one neighborhood. */
  function In(recs: seq<Node>, name: string): seq<Node> {
    if recs == [] then []
    else
      var (rest, rec) := (In(recs[..|recs| - 1], name), recs[|recs| - 1]);
      if HoodName(rec) == name then rest + [rec] else rest
  }

  function HoodNames(recs: seq<Node>): set<string> {
    set i | 0 <= i < |recs| :: HoodName(recs[i])
  }

  /** The report is the fold over these records: totals, and one sorted line per neighborhood. */
  ghost predicate Totals(r: Report, recs: seq<Node>) {
    && r.nodesAlive == |recs|
    && r.watts == Sum(recs)
    && r.wattsMeasured == Sum(Metered(recs))
    && |r.hoods| == |HoodNames(recs)|
    && (forall i, j :: 0 <= i < j < |r.hoods| ==> TextLess(r.hoods[i].name, r.hoods[j].name))
    && (forall i :: 0 <= i < |r.hoods| ==> Filed(r.hoods[i], recs))
    && (forall name :: name in HoodNames(recs) ==> exists i :: 0 <= i < |r.hoods| && r.hoods[i].name == name)
  }

  predicate Filed(h: Hood, recs: seq<Node>) {
    h.name in HoodNames(recs) && h.nodes == |In(recs, h.name)| && h.watts == Sum(In(recs, h.name))
  }

  /** The last page of the listing is the n-th. */
  ghost predicate Ends(grid: Grid, n: nat) {
    n > 0 && !grid.page(n - 1).more && forall i: nat :: i < n - 1 ==> grid.page(i).more
  }

  /** The whole grid fits both budgets. */
  ghost predicate Fits(grid: Grid, n: nat) {
    n <= STATS_MAX_PAGES && Ends(grid, n) && |Listed(grid, n)| <= STATS_MAX_GETS
  }

  // ---------------------------------------------------------------- the accumulators

  ghost predicate Tally(hoods: map<string, Hood>, recs: seq<Node>) {
    && hoods.Keys == HoodNames(recs)
    && forall name :: name in hoods ==> hoods[name].name == name && Filed(hoods[name], recs)
  }

  lemma Snoc(recs: seq<Node>, rec: Node)
    ensures Sum(recs + [rec]) == Sum(recs) + Watt(rec)
    ensures Metered(recs + [rec]) == if rec.measured then Metered(recs) + [rec] else Metered(recs)
    ensures HoodNames(recs + [rec]) == HoodNames(recs) + {HoodName(rec)}
  {
    var all := recs + [rec];
    assert all[..|all| - 1] == recs;
    forall name ensures name in HoodNames(all) <==> name in HoodNames(recs) + {HoodName(rec)} {
      if name in HoodNames(recs) {
        var i :| 0 <= i < |recs| && HoodName(recs[i]) == name;
        assert all[i] == recs[i];
      }
      if name == HoodName(rec) { assert all[|recs|] == rec; }
    }
  }

  lemma SnocIn(recs: seq<Node>, rec: Node, name: string)
    ensures In(recs + [rec], name) == if HoodName(rec) == name then In(recs, name) + [rec] else In(recs, name)
    ensures Sum(In(recs + [rec], name)) == Sum(In(recs, name)) + if HoodName(rec) == name then Watt(rec) else 0.0
  {
    assert (recs + [rec])[..|recs|] == recs;
    Snoc(In(recs, name), rec);
  }

  lemma {:induction false} InOutside(recs: seq<Node>, name: string)
    requires name !in HoodNames(recs)
    ensures In(recs, name) == []
    decreases |recs|
  {
    if recs != [] {
      var (rest, rec) := (recs[..|recs| - 1], recs[|recs| - 1]);
      assert recs == rest + [rec];
      Snoc(rest, rec);
      InOutside(rest, name);
    }
  }

  function Counted(hoods: map<string, Hood>, rec: Node): map<string, Hood> {
    var name := HoodName(rec);
    var hood := if name in hoods then hoods[name] else Hood(name, 0, 0.0);
    hoods[name := Hood(hood.name, hood.nodes + 1, hood.watts + Watt(rec))]
  }

  lemma TallyAdd(hoods: map<string, Hood>, recs: seq<Node>, rec: Node)
    requires Tally(hoods, recs)
    ensures Tally(Counted(hoods, rec), recs + [rec])
  {
    var (after, all) := (Counted(hoods, rec), recs + [rec]);
    Snoc(recs, rec);
    assert after.Keys == hoods.Keys + {HoodName(rec)};
    forall name | name in after ensures after[name].name == name && Filed(after[name], all) {
      SnocIn(recs, rec, name);
      if name !in hoods { InOutside(recs, name); }
    }
  }

  lemma NextRecord(grid: Grid, names: seq<string>, name: string, now: nat)
    ensures AliveRecords(grid, names + [name], now) ==
              if grid.get(name).Some? && Alive(grid.get(name).value, now)
              then AliveRecords(grid, names, now) + [grid.get(name).value] else AliveRecords(grid, names, now)
  {
    assert (names + [name])[..|names|] == names;
  }

  function Lines(hoods: map<string, Hood>, names: seq<string>): (q: seq<Hood>)
    requires forall i :: 0 <= i < |names| ==> names[i] in hoods
    ensures |q| == |names| && forall i :: 0 <= i < |q| ==> q[i] == hoods[names[i]]
  {
    seq(|names|, i requires 0 <= i < |names| => hoods[names[i]])
  }

  lemma LinesTotal(r: Report, hoods: map<string, Hood>, recs: seq<Node>, names: seq<string>)
    requires Tally(hoods, recs) && Lists(names, hoods.Keys, TextLess) && |names| == |hoods.Keys|
    requires forall i :: 0 <= i < |names| ==> names[i] in hoods
    requires r.hoods == Lines(hoods, names)
    requires r.nodesAlive == |recs| && r.watts == Sum(recs) && r.wattsMeasured == Sum(Metered(recs))
    ensures Totals(r, recs)
  {
    hide TextLess, Sum, Metered, In, HoodNames;
    forall i, j | 0 <= i < j < |r.hoods| ensures TextLess(r.hoods[i].name, r.hoods[j].name) {
      assert r.hoods[i].name == names[i] && r.hoods[j].name == names[j];
    }
    forall name | name in HoodNames(recs) ensures exists i :: 0 <= i < |r.hoods| && r.hoods[i].name == name {
      var i :| 0 <= i < |names| && names[i] == name;
      assert r.hoods[i].name == name;
    }
    forall i | 0 <= i < |r.hoods| ensures Filed(r.hoods[i], recs) {
      assert names[i] in hoods;
    }
  }

  /** The four accumulators hold the fold over these records. */
  ghost predicate Folded(nodesAlive: nat, watts: real, measured: real, hoods: map<string, Hood>, recs: seq<Node>) {
    nodesAlive == |recs| && watts == Sum(recs) && measured == Sum(Metered(recs)) && Tally(hoods, recs)
  }

  lemma FoldedAdd(nodesAlive: nat, watts: real, measured: real, hoods: map<string, Hood>, recs: seq<Node>, rec: Node)
    requires Folded(nodesAlive, watts, measured, hoods, recs)
    ensures Folded(nodesAlive + 1, watts + Watt(rec), if rec.measured then measured + Watt(rec) else measured,
                   Counted(hoods, rec), recs + [rec])
  {
    hide Sum, Metered, Tally, Counted;
    Snoc(recs, rec);
    if rec.measured { Snoc(Metered(recs), rec); }
    TallyAdd(hoods, recs, rec);
  }

  // ---------------------------------------------------------------- the scan

  class Scan {
    var nodesAlive: nat
    var watts: real
    var wattsMeasured: real
    var gets: nat
    var partial: bool
    var hoods: map<string, Hood>
    ghost var read: seq<string>

    /** The accumulators hold the fold over the records read so far. */
    ghost predicate Holds(grid: Grid, now: nat)
      reads this
    {
      Folded(nodesAlive, watts, wattsMeasured, hoods, AliveRecords(grid, read, now)) && gets == |read| <= STATS_MAX_GETS
    }

    constructor ()
      ensures read == [] && !partial && nodesAlive == 0 && watts == 0.0 && wattsMeasured == 0.0 && hoods == map[] && gets == 0
    {
      nodesAlive, watts, wattsMeasured, gets, partial, hoods, read := 0, 0.0, 0.0, 0, false, map[], [];
    }

    /** One record: read, and counted when it is there and not stale. */
    method ReadOne(grid: Grid, name: string, now: nat)
      requires Holds(grid, now) && gets < STATS_MAX_GETS
      modifies this
      ensures Holds(grid, now) && read == old(read) + [name] && partial == old(partial)
    {
      hide Folded, AliveRecords;
      gets := gets + 1;
      NextRecord(grid, read, name, now);
      ghost var recs := AliveRecords(grid, read, now);
      read := read + [name];
      var rec := grid.get(name);
      if rec.None? { return; }
      if now - rec.value.lastSeen > STALE_MS { return; }
      FoldedAdd(nodesAlive, watts, wattsMeasured, hoods, recs, rec.value);
      var watt := if rec.value.wattage > 0.0 then rec.value.wattage else 0.0;
      nodesAlive := nodesAlive + 1;
      watts := watts + watt;
      if rec.value.measured { wattsMeasured := wattsMeasured + watt; }
      var hoodName := HoodName(rec.value);
      var hood := if hoodName in hoods then hoods[hoodName] else Hood(hoodName, 0, 0.0);
      hoods := hoods[hoodName := Hood(hood.name, hood.nodes + 1, hood.watts + watt)];
    }

    /** One page, name by name, until the get budget is spent. */
    method ReadPage(grid: Grid, names: seq<string>, now: nat)
      requires Holds(grid, now) && !partial
      modifies this
      ensures Holds(grid, now)
      ensures read == Take(old(read) + names, STATS_MAX_GETS)
      ensures partial <==> |old(read) + names| > STATS_MAX_GETS
    {
      hide AliveRecords, Folded;
      var i := 0;
      while i < |names|
        invariant 0 <= i <= |names|
        invariant Holds(grid, now) && !partial && read == old(read) + names[..i]
      {
        if gets >= STATS_MAX_GETS {
          partial := true;
          return;
        }
        ReadOne(grid, names[i], now);
        assert names[..i + 1] == names[..i] + [names[i]];
        i := i + 1;
      }
      assert names[..i] == names;
    }
  }

  /** The page loop: every page in turn until the listing ends or a budget is spent. */
  method ScanPages(grid: Grid, now: nat) returns (scan: Scan, lists: nat)
    ensures fresh(scan) && scan.Holds(grid, now)
    ensures scan.read == Take(Listed(grid, lists), STATS_MAX_GETS)
    ensures scan.partial <==> !exists n: nat :: Fits(grid, n)
    ensures !scan.partial ==> Ends(grid, lists) && |Listed(grid, lists)| <= STATS_MAX_GETS
    ensures 1 <= lists <= STATS_MAX_PAGES
  {
    hide Folded, AliveRecords;
    scan := NewScan(grid, now);
    lists := 0;
    var complete := false;
    while lists < STATS_MAX_PAGES && !scan.partial && !complete
      invariant fresh(scan) && lists <= STATS_MAX_PAGES && scan.Holds(grid, now)
      invariant scan.read == Take(Listed(grid, lists), STATS_MAX_GETS)
      invariant forall i: nat :: i + 1 < lists ==> grid.page(i).more
      invariant lists > 0 && complete ==> !grid.page(lists - 1).more
      invariant lists > 0 && !complete ==> grid.page(lists - 1).more
      invariant scan.partial <==> |Listed(grid, lists)| > STATS_MAX_GETS || (lists == STATS_MAX_PAGES && !complete)
      invariant lists == 0 ==> !complete
    {
      var listed := grid.page(lists);
      lists := lists + 1;
      scan.ReadPage(grid, listed.names, now);
      if !listed.more {
        complete := true;
      } else if lists == STATS_MAX_PAGES {
        scan.partial := true;
      }
    }
    PartialExactly(grid, lists, scan.partial, complete);
  }

  method NewScan(grid: Grid, now: nat) returns (scan: Scan)
    ensures fresh(scan) && scan.Holds(grid, now) && scan.read == [] && !scan.partial
  {
    scan := new Scan();
    assert AliveRecords(grid, [], now) == [];
  }

  // ---------------------------------------------------------------- a grid served from a node table

  /** The i-th page of the `node:` keys in key order, and whether the listing goes on. */
  function TablePage(nodes: map<string, Node>, i: nat): Page {
    var names := Paging.NamesOf(SortedText(nodes.Keys));
    Page(names[Min(i * STATS_PAGE, |names|)..Min((i + 1) * STATS_PAGE, |names|)], (i + 1) * STATS_PAGE < |names|)
  }

  /** The store lists and returns exactly the records of this table. */
  ghost predicate Serves(grid: Grid, nodes: map<string, Node>) {
    && (forall i: nat :: grid.page(i) == TablePage(nodes, i))
    && (forall id :: grid.get(Render(NodeKey(id))) == if id in nodes then Some(nodes[id]) else None)
  }

  function FetchRecord(nodes: map<string, Node>, name: string): Option<Node> {
    var id := Paging.IdOf(name);
    if id in nodes && name == Render(NodeKey(id)) then Some(nodes[id]) else None
  }

  /** Every table is served by some grid. */
  lemma TableServed(nodes: map<string, Node>, jobsDone: Option<int>)
    ensures Serves(Grid((i: nat) => TablePage(nodes, i), name => FetchRecord(nodes, name), jobsDone), nodes)
  {
    hide TablePage;
    forall id ensures FetchRecord(nodes, Render(NodeKey(id))) == if id in nodes then Some(nodes[id]) else None {
      var name := Render(NodeKey(id));
      assert name == "node" + [':'] + id && name[5..] == id;
    }
  }

  /** Where the n-th page starts. */
  function PageStart(names: seq<string>, n: nat): (k: nat)
    ensures k <= |names| && (n == 0 ==> k == 0)
  {
    Min(n * STATS_PAGE, |names|)
  }

  lemma PageNames(grid: Grid, nodes: map<string, Node>, i: nat, names: seq<string>)
    requires Serves(grid, nodes) && names == Paging.NamesOf(SortedText(nodes.Keys))
    ensures PageStart(names, i) <= PageStart(names, i + 1)
    ensures grid.page(i).names == names[PageStart(names, i)..PageStart(names, i + 1)]
  {
    hide TextLess, SortedText, Paging.NamesOf;
    assert grid.page(i) == TablePage(nodes, i);
  }

  lemma {:induction false} ListedSoFar(grid: Grid, nodes: map<string, Node>, n: nat, names: seq<string>)
    requires Serves(grid, nodes) && names == Paging.NamesOf(SortedText(nodes.Keys))
    ensures Listed(grid, n) == names[..PageStart(names, n)]
    decreases n
  {
    hide SortedText, Serves, PageStart, Paging.NamesOf;
    if n > 0 {
      var (k, l) := (PageStart(names, n - 1), PageStart(names, n));
      ListedSoFar(grid, nodes, n - 1, names);
      PageNames(grid, nodes, n - 1, names);
      OneMorePage(grid, n, names, k, l);
    }
  }

  lemma OneMorePage(grid: Grid, n: nat, names: seq<string>, k: nat, l: nat)
    requires n > 0 && k <= l <= |names|
    requires Listed(grid, n - 1) == names[..k] && grid.page(n - 1).names == names[k..l]
    ensures Listed(grid, n) == names[..l]
  {
    TakeFurther(names, k, l);
  }

  /** The first pages hold the first names of the table, in key order. */
  lemma ListedIsTable(grid: Grid, nodes: map<string, Node>, n: nat)
    requires Serves(grid, nodes)
    ensures var names := Paging.NamesOf(SortedText(nodes.Keys));
            Listed(grid, n) == names[..Min(n * STATS_PAGE, |names|)]
  {
    hide SortedText, Serves, Paging.NamesOf, Listed;
    var names := Paging.NamesOf(SortedText(nodes.Keys));
    ListedSoFar(grid, nodes, n, names);
  }

  lemma TakeFurther(names: seq<string>, k: nat, l: nat)
    requires k <= l <= |names|
    ensures names[..l] == names[..k] + names[k..l]
  {
  }

  /** A table fits the budgets exactly when it has no more records than the get budget. */
  lemma TableFits(grid: Grid, nodes: map<string, Node>)
    requires Serves(grid, nodes)
    ensures (exists n: nat :: Fits(grid, n)) <==> |nodes| <= 800
  {
    hide Serves, TextLess;
    var names := Paging.NamesOf(SortedText(nodes.Keys));
    assert |names| == |nodes.Keys| == |nodes|;
    if |nodes| <= STATS_MAX_GETS {
      ListedIsTable(grid, nodes, 1);
      PageMore(grid, nodes, 0);
      assert Fits(grid, 1);
    }
    if n: nat :| Fits(grid, n) {
      ListedIsTable(grid, nodes, n);
      PageMore(grid, nodes, n - 1);
    }
  }

  lemma PageMore(grid: Grid, nodes: map<string, Node>, i: nat)
    requires Serves(grid, nodes)
    ensures grid.page(i).more <==> (i + 1) * STATS_PAGE < |SortedText(nodes.Keys)|
  {
    assert grid.page(i) == TablePage(nodes, i);
  }

  /** Once the listing has ended, all the table's names have been listed. */
  lemma ListedAll(grid: Grid, nodes: map<string, Node>, n: nat)
    requires Serves(grid, nodes) && Ends(grid, n)
    ensures Listed(grid, n) == Paging.NamesOf(SortedText(nodes.Keys))
  {
    hide Serves, SortedText, Paging.NamesOf, Listed;
    ListedIsTable(grid, nodes, n);
    PageMore(grid, nodes, n - 1);
    var names := Paging.NamesOf(SortedText(nodes.Keys));
    assert names[..|names|] == names;
  }

  /** The records alive in a table, by id. */
  function AliveIds(nodes: map<string, Node>, now: nat): set<string> {
    set id | id in nodes && Alive(nodes[id], now)
  }

  /** The alive ones among some names, in their order. */
  function AliveNames(nodes: map<string, Node>, names: seq<string>, now: nat): (r: seq<string>)
    ensures forall i :: 0 <= i < |r| ==> r[i] in AliveIds(nodes, now) && r[i] in names
  {
    if names == [] then []
    else
      var (rest, last) := (names[..|names| - 1], names[|names| - 1]);
      if last in AliveIds(nodes, now) then AliveNames(nodes, rest, now) + [last] else AliveNames(nodes, rest, now)
  }

  function RecordsOf(nodes: map<string, Node>, ids: seq<string>): seq<Node>
    requires forall i :: 0 <= i < |ids| ==> ids[i] in nodes
  {
    seq(|ids|, i requires 0 <= i < |ids| => nodes[ids[i]])
  }

  lemma {:induction false} AliveByName(grid: Grid, nodes: map<string, Node>, names: seq<string>, now: nat)
    requires forall id :: grid.get(Render(NodeKey(id))) == if id in nodes then Some(nodes[id]) else None
    ensures AliveRecords(grid, Paging.NamesOf(names), now) == RecordsOf(nodes, AliveNames(nodes, names, now))
    decreases |names|
  {
    hide Render;
    if names != [] {
      AliveByName(grid, nodes, names[..|names| - 1], now);
      var all := Paging.NamesOf(names);
      assert all[..|all| - 1] == Paging.NamesOf(names[..|names| - 1]);
    }
  }

  /** Dropping names from a sorted list leaves the sorted list of the rest. */
  lemma {:induction false} AliveSorted(nodes: map<string, Node>, names: seq<string>, now: nat)
    requires Sorted(names, TextLess)
    ensures Sorted(AliveNames(nodes, names, now), TextLess)
    ensures forall id :: id in names && id in AliveIds(nodes, now) ==> id in AliveNames(nodes, names, now)
    decreases |names|
  {
    hide TextLess;
    if names != [] {
      var (rest, last) := (names[..|names| - 1], names[|names| - 1]);
      AliveSorted(nodes, rest, now);
      var kept := AliveNames(nodes, rest, now);
      assert names == rest + [last];
      forall i | 0 <= i < |kept| ensures TextLess(kept[i], last) {
        var j :| 0 <= j < |rest| && rest[j] == kept[i];
        assert names[j] == kept[i] && names[|rest|] == last;
      }
    }
  }

  /** What was read to the end of the listing is the table's alive records, in id order: none missed, none twice. */
  lemma AliveInTable(grid: Grid, nodes: map<string, Node>, n: nat, now: nat)
    requires Serves(grid, nodes) && Ends(grid, n)
    ensures forall id :: id in SortedText(AliveIds(nodes, now)) ==> id in nodes
    ensures AliveRecords(grid, Listed(grid, n), now) == RecordsOf(nodes, SortedText(AliveIds(nodes, now)))
    ensures |AliveRecords(grid, Listed(grid, n), now)| == |AliveIds(nodes, now)|
  {
    hide TextLess, SortedText, AliveRecords, Ends, Listed, TablePage;
    var ids := SortedText(nodes.Keys);
    SortedTextLists(nodes.Keys);
    SortedTextLists(AliveIds(nodes, now));
    AliveSorted(nodes, ids, now);
    ListingUnique(AliveNames(nodes, ids, now), SortedText(AliveIds(nodes, now)), AliveIds(nodes, now), TextLess);
    AliveByName(grid, nodes, ids, now);
    ListedAll(grid, nodes, n);
  }

  /** A report on a grid that serves this table: flagged exactly when the table is too big, and else the fold over all of it. */
  ghost predicate Covers(r: Report, nodes: map<string, Node>, now: nat) {
    && (!r.partial <==> |nodes| <= 800)
    && (!r.partial ==> r.nodesAlive == |AliveIds(nodes, now)| && Totals(r, RecordsOf(nodes, SortedText(AliveIds(nodes, now)))))
  }

  lemma ReportCovers(grid: Grid, nodes: map<string, Node>, r: Report, lists: nat, now: nat)
    requires Serves(grid, nodes) && Totals(r, AliveRecords(grid, Take(Listed(grid, lists), STATS_MAX_GETS), now))
    requires r.partial <==> !exists n: nat :: Fits(grid, n)
    requires !r.partial ==> Ends(grid, lists) && Take(Listed(grid, lists), STATS_MAX_GETS) == Listed(grid, lists)
    ensures Covers(r, nodes, now)
  {
    hide Totals, Fits, Serves, Ends, Listed, AliveRecords, SortedText;
    TableFits(grid, nodes);
    if !r.partial {
      AliveInTable(grid, nodes, lists, now);
      TotalsCount(r, AliveRecords(grid, Listed(grid, lists), now));
    }
  }

  lemma TotalsCount(r: Report, recs: seq<Node>)
    requires Totals(r, recs)
    ensures r.nodesAlive == |recs|
  {
  }

  /** `handleStats`, with the number of list calls, of get calls, and the names it read. */
  method Stats(grid: Grid, now: nat) returns (r: Report, lists: nat, gets: nat, ghost read: seq<string>)
    ensures Totals(r, AliveRecords(grid, read, now))
    ensures read == Take(Listed(grid, lists), STATS_MAX_GETS)
    ensures r.partial <==> !exists n: nat :: Fits(grid, n)
    ensures !r.partial ==> Ends(grid, lists) && read == Listed(grid, lists)
    ensures r.jobsDone == Handlers.ReadCounter(grid.jobsDone)
    ensures 1 <= lists <= 20 && gets == |read| + 1 <= 801
    ensures forall nodes :: Serves(grid, nodes) ==> Covers(r, nodes, now)
  {
    hide AliveRecords, TextLess, Totals, Serves, Covers, Fits, Ends;
    var scan;
    scan, lists := ScanPages(grid, now);
    read := scan.read;
    var jobsDone := Handlers.ReadCounter(grid.jobsDone);
    SortedTextLists(scan.hoods.Keys);
    var names := SortedText(scan.hoods.Keys);
    r := Report(scan.nodesAlive, scan.watts, scan.wattsMeasured, jobsDone, Lines(scan.hoods, names), scan.partial);
    LinesTotal(r, scan.hoods, AliveRecords(grid, read, now), names);
    gets := scan.gets + 1;
    forall nodes | Serves(grid, nodes) ensures Covers(r, nodes, now) { ReportCovers(grid, nodes, r, lists, now); }
  }

  lemma {:induction false} ListedGrows(grid: Grid, m: nat, n: nat)
    requires m <= n
    ensures |Listed(grid, m)| <= |Listed(grid, n)|
    decreases n
  {
    if m < n { ListedGrows(grid, m, n - 1); }
  }

  lemma PartialExactly(grid: Grid, lists: nat, partial: bool, complete: bool)
    requires 0 < lists <= STATS_MAX_PAGES && (forall i: nat :: i + 1 < lists ==> grid.page(i).more)
    requires complete ==> !grid.page(lists - 1).more
    requires partial ==> |Listed(grid, lists)| > STATS_MAX_GETS || (lists == STATS_MAX_PAGES && grid.page(lists - 1).more)
    requires |Listed(grid, lists)| > STATS_MAX_GETS ==> partial
    requires !partial ==> complete
    ensures partial <==> !exists n: nat :: Fits(grid, n)
    ensures !partial ==> Ends(grid, lists)
  {
    if !partial { assert Fits(grid, lists); }
    if partial && exists n: nat :: Fits(grid, n) {
      var n: nat :| Fits(grid, n);
      var last: nat := n - 1;
      assert last + 1 < lists ==> grid.page(last).more;
      ListedGrows(grid, lists, n);
      assert false;
    }
  }

  // ---------------------------------------------------------------- what the totals mean

  function HoodNodes(hoods: seq<Hood>): nat {
    if hoods == [] then 0 else hoods[0].nodes + HoodNodes(hoods[1..])
  }

  function HoodWatts(hoods: seq<Hood>): real {
    if hoods == [] then 0.0 else hoods[0].watts + HoodWatts(hoods[1..])
  }

  function Under(hoods: seq<Hood>, recs: seq<Node>): seq<Hood> {
    seq(|hoods|, i requires 0 <= i < |hoods| => Hood(hoods[i].name, |In(recs, hoods[i].name)|, Sum(In(recs, hoods[i].name))))
  }

  /** One more record adds itself to exactly one line. */
  lemma {:induction false} OneMoreRecord(hoods: seq<Hood>, recs: seq<Node>, rec: Node)
    requires forall i, j :: 0 <= i < j < |hoods| ==> hoods[i].name != hoods[j].name
    ensures var filed := exists i :: 0 <= i < |hoods| && hoods[i].name == HoodName(rec);
            && HoodWatts(Under(hoods, recs + [rec])) == HoodWatts(Under(hoods, recs)) + (if filed then Watt(rec) else 0.0)
            && HoodNodes(Under(hoods, recs + [rec])) == HoodNodes(Under(hoods, recs)) + (if filed then 1 else 0)
    decreases |hoods|
  {
    hide Sum, In;
    if hoods != [] {
      OneMoreRecord(hoods[1..], recs, rec);
      SnocIn(recs, rec, hoods[0].name);
      assert Under(hoods, recs)[1..] == Under(hoods[1..], recs);
      assert Under(hoods, recs + [rec])[1..] == Under(hoods[1..], recs + [rec]);
      if hoods[0].name == HoodName(rec) {
        assert forall i :: 0 <= i < |hoods[1..]| ==> hoods[1..][i].name != HoodName(rec);
      } else if i :| 0 <= i < |hoods| && hoods[i].name == HoodName(rec) {
        assert hoods[1..][i - 1].name == HoodName(rec);
      }
    }
  }

  lemma {:induction false} EmptyLines(hoods: seq<Hood>)
    ensures HoodWatts(Under(hoods, [])) == 0.0 && HoodNodes(Under(hoods, [])) == 0
    decreases |hoods|
  {
    if hoods != [] {
      EmptyLines(hoods[1..]);
      assert Under(hoods, [])[1..] == Under(hoods[1..], []);
    }
  }

  lemma {:induction false} LinesCover(hoods: seq<Hood>, recs: seq<Node>)
    requires forall i, j :: 0 <= i < j < |hoods| ==> hoods[i].name != hoods[j].name
    requires forall name :: name in HoodNames(recs) ==> exists i :: 0 <= i < |hoods| && hoods[i].name == name
    ensures HoodWatts(Under(hoods, recs)) == Sum(recs) && HoodNodes(Under(hoods, recs)) == |recs|
    decreases |recs|
  {
    if recs == [] {
      EmptyLines(hoods);
    } else {
      var (rest, rec) := (recs[..|recs| - 1], recs[|recs| - 1]);
      assert recs == rest + [rec];
      Snoc(rest, rec);
      assert HoodName(rec) in HoodNames(recs);
      LinesCover(hoods, rest);
      OneMoreRecord(hoods, rest, rec);
    }
  }

  lemma {:induction false} MeteredIsPart(recs: seq<Node>)
    ensures 0.0 <= Sum(Metered(recs)) <= Sum(recs)
    decreases |recs|
  {
    if recs != [] {
      var (rest, rec) := (recs[..|recs| - 1], recs[|recs| - 1]);
      assert recs == rest + [rec];
      MeteredIsPart(rest);
      Snoc(rest, rec);
      Snoc(Metered(rest), rec);
    }
  }

  /** In every report, partial or not, the neighborhoods add up to the totals, and measured watts are part of them. */
  lemma HoodsAddUp(r: Report, recs: seq<Node>)
    requires Totals(r, recs)
    ensures HoodNodes(r.hoods) == r.nodesAlive && HoodWatts(r.hoods) == r.watts
    ensures 0.0 <= r.wattsMeasured <= r.watts
  {
    hide Sum, In, HoodNodes, HoodWatts, Metered;
    forall i, j | 0 <= i < j < |r.hoods| ensures r.hoods[i].name != r.hoods[j].name {
      TextTotal({r.hoods[i].name});
    }
    LinesCover(r.hoods, recs);
    assert Under(r.hoods, recs) == r.hoods;
    MeteredIsPart(recs);
  }

  /** Names read further along only add: a partial report is a floor of the full one. */
  lemma {:induction false} PartialIsFloor(grid: Grid, part: seq<string>, all: seq<string>, now: nat)
    requires part <= all
    ensures |AliveRecords(grid, part, now)| <= |AliveRecords(grid, all, now)|
    ensures Sum(AliveRecords(grid, part, now)) <= Sum(AliveRecords(grid, all, now))
    decreases |all|
  {
    if part != all {
      var (rest, last) := (all[..|all| - 1], all[|all| - 1]);
      assert all == rest + [last];
      PartialIsFloor(grid, part, rest, now);
      NextRecord(grid, rest, last, now);
      if grid.get(last).Some? { Snoc(AliveRecords(grid, rest, now), grid.get(last).value); }
    } else {
      assert part == all;
    }
  }
}
