/** Node listing: two servers that answer one page at a time, and the client loop that reassembles them. */
module Paging {
  import opened Base
  import opened Ordering
  import opened Keys
  import opened Store

  const NODES_LIMIT_MAX: nat := 200
  const MAX_NODE_PAGES: nat := 100

  /** What a listing says about one node. */
  datatype View = View(
    nodeId: string, pubkey: string, verifyKey: string, wattage: real, measured: bool, neighborhood: string,
    lastSeen: nat, alive: bool)

  function ViewOf(rec: Node, now: nat): View {
    View(rec.nodeId, rec.pubkey, rec.verifyKey, rec.wattage, rec.measured, HoodName(rec), rec.lastSeen,
         Alive(rec, now))
  }

  /** A page of nodes and the cursor of the next one, the empty string when there is none; or a refusal. */
  datatype Answer = Refusal(code: nat) | Page(nodes: seq<View>, cursor: string)

  /** The node table as both servers hold it: ids are node ids and each record carries its own. */
  ghost predicate Table(nodes: map<string, Node>) {
    forall id :: id in nodes ==> IsNodeId(id) && nodes[id].nodeId == id
  }

  function Views(nodes: map<string, Node>, ids: seq<string>, now: nat): (v: seq<View>)
    requires forall i :: 0 <= i < |ids| ==> ids[i] in nodes
    ensures |v| == |ids| && forall i :: 0 <= i < |v| ==> v[i] == ViewOf(nodes[ids[i]], now)
  {
    seq(|ids|, i requires 0 <= i < |ids| => ViewOf(nodes[ids[i]], now))
  }

  /** The ids past a cursor, in the order given. */
  function After(ids: seq<string>, cursor: string): (r: seq<string>)
    ensures forall i :: 0 <= i < |r| ==> r[i] in ids
  {
    if ids == [] then []
    else if TextLess(cursor, ids[0]) then [ids[0]] + After(ids[1..], cursor)
    else After(ids[1..], cursor)
  }

  function Clamp(limit: int): nat {
    if Min(limit, NODES_LIMIT_MAX) < 1 then 1 else Min(limit, NODES_LIMIT_MAX)
  }

  /** `_list_nodes` of the mock: sort, drop up to the cursor, cut, and name the last id when more remain. */
  function MockListNodes(nodes: map<string, Node>, now: nat, limit: int, cursor: string): Answer {
    var ordered := SortedText(nodes.Keys);
    var left := if cursor != "" then After(ordered, cursor) else ordered;
    var page := Take(left, Clamp(limit));
    Page(Views(nodes, page, now), if |left| > Clamp(limit) && page != [] then page[|page| - 1] else "")
  }

  /** The store's own listing of `node:` keys: it resumes after the cursor and says whether it is complete. */
  datatype Listing = Listing(names: seq<string>, complete: bool, cursor: string)

  function ListNodeKeys(nodes: map<string, Node>, limit: nat, cursor: string): Listing {
    var all := SortedText(set id | id in nodes :: Render(NodeKey(id)));
    var left := if cursor == "" then all else After(all, cursor);
    var names := Take(left, limit);
    Listing(names, |left| <= limit, if names == [] then "" else names[|names| - 1])
  }

  function IdOf(name: string): string {
    if |name| >= 5 then name[5..] else ""
  }

  /** `storage.get` for each listed name, skipping what is no longer there. */
  function Fetch(nodes: map<string, Node>, names: seq<string>, now: nat): seq<View> {
    if names == [] then []
    else if IdOf(names[0]) in nodes then [ViewOf(nodes[IdOf(names[0])], now)] + Fetch(nodes, names[1..], now)
    else Fetch(nodes, names[1..], now)
  }

  /** `handleListNodes`: the coordinator's page; a limit below one is refused. */
  function ListNodes(nodes: map<string, Node>, now: nat, limit: int, cursor: string): Answer {
    if limit < 1 then Refusal(400)
    else
      var listed := ListNodeKeys(nodes, Min(limit, NODES_LIMIT_MAX), cursor);
      Page(Fetch(nodes, listed.names, now), if !listed.complete then listed.cursor else "")
  }

  // ---------------------------------------------------------------- pages of a sorted list

  /** In a sorted list of names, the ones past the k-th are the tail after it. */
  lemma {:induction false} AfterKth(ids: seq<string>, k: nat)
    requires k < |ids| && Sorted(ids, TextLess)
    ensures After(ids, ids[k]) == ids[k + 1..]
    decreases |ids|
  {
    var (c, rest) := (ids[k], ids[1..]);
    assert Sorted(rest, TextLess) by { assert forall i :: 0 <= i < |rest| ==> rest[i] == ids[i + 1]; }
    if k > 0 {
      NotAfter(ids, k);
      AfterKth(rest, k - 1);
      assert rest[k - 1] == c && rest[k..] == ids[k + 1..];
    } else {
      LexIrreflexive(Codes(c));
      AllAfter(rest, c);
    }
  }

  lemma NotAfter(ids: seq<string>, k: nat)
    requires 0 < k < |ids| && Sorted(ids, TextLess)
    ensures !TextLess(ids[k], ids[0])
  {
    TextTotal({ids[0], ids[k]});
    assert TextLess(ids[0], ids[k]);
  }

  lemma {:induction false} AllAfter(ids: seq<string>, c: string)
    requires forall i :: 0 <= i < |ids| ==> TextLess(c, ids[i])
    ensures After(ids, c) == ids
    decreases |ids|
  {
    if ids != [] {
      AllAfter(ids[1..], c);
      assert ids == [ids[0]] + ids[1..];
    }
  }

  /** The list a page is cut from, when the cursor is the k-th element of the sorted list. */
  lemma LeftAfter(all: seq<string>, cursor: string, k: nat)
    requires Sorted(all, TextLess) && k <= |all| && (k > 0 ==> cursor == all[k - 1])
    ensures k > 0 ==> After(all, cursor) == all[k..]
  {
    if k > 0 { AfterKth(all, k - 1); }
  }

  lemma MockPageAt(nodes: map<string, Node>, now: nat, limit: int, k: nat, ids: seq<string>, cursor: string)
    requires ids == SortedText(nodes.Keys) && k <= |ids|
    requires if k == 0 then cursor == "" else cursor == ids[k - 1] != ""
    ensures var end := Min(k + Clamp(limit), |ids|);
            MockListNodes(nodes, now, limit, cursor) ==
              Page(Views(nodes, ids[k..end], now), if end < |ids| then ids[end - 1] else "")
  {
    hide TextLess, SortedText, After, Clamp, MockListNodes, Views;
    assert forall i :: 0 <= i < |ids| ==> ids[i] in nodes.Keys;
    assert Sorted(ids, TextLess) by { SortedTextLists(nodes.Keys); }
    ClampPositive(limit);
    LeftAfter(ids, cursor, k);
    var left := ids[k..];
    assert k == 0 ==> left == ids;
    MockPageOf(nodes, now, limit, ids, cursor, left);
    assert Take(left, Clamp(limit)) == ids[k..Min(k + Clamp(limit), |ids|)];
  }

  lemma MockPageOf(nodes: map<string, Node>, now: nat, limit: int, ids: seq<string>, cursor: string, left: seq<string>)
    requires ids == SortedText(nodes.Keys) && left == if cursor != "" then After(ids, cursor) else ids
    requires forall i :: 0 <= i < |left| ==> left[i] in nodes
    ensures var page := Take(left, Clamp(limit));
            MockListNodes(nodes, now, limit, cursor) ==
              Page(Views(nodes, page, now), if |left| > Clamp(limit) && page != [] then page[|page| - 1] else "")
  {
    hide TextLess, LexLess, SortedText, After, Clamp;
  }

  // ---------------------------------------------------------------- the coordinator's listing

  function NamesOf(ids: seq<string>): (names: seq<string>)
    ensures |names| == |ids| && forall i :: 0 <= i < |names| ==> names[i] == Render(NodeKey(ids[i]))
  {
    seq(|ids|, i requires 0 <= i < |ids| => Render(NodeKey(ids[i])))
  }

  lemma NodeKeyOrder(a: string, b: string)
    ensures TextLess(Render(NodeKey(a)), Render(NodeKey(b))) <==> TextLess(a, b)
  {
    CodesJoin("node" + [':'], a);
    CodesJoin("node" + [':'], b);
    LexCommonPrefix(Codes("node" + [':']), Codes(a), Codes(b));
  }

  /** Listing the `node:` prefix is listing the ids. */
  lemma NodeKeysInOrder(nodes: map<string, Node>)
    ensures SortedText(set id | id in nodes :: Render(NodeKey(id))) == NamesOf(SortedText(nodes.Keys))
    ensures Sorted(NamesOf(SortedText(nodes.Keys)), TextLess)
  {
    var ids := SortedText(nodes.Keys);
    SortedTextLists(nodes.Keys);
    RenderedIds(nodes, ids);
  }

  lemma RenderedIds(nodes: map<string, Node>, ids: seq<string>)
    requires Lists(ids, nodes.Keys, TextLess)
    ensures SortedText(set id | id in nodes :: Render(NodeKey(id))) == NamesOf(ids)
    ensures Sorted(NamesOf(ids), TextLess)
  {
    hide TextLess, Render;
    var names := set id | id in nodes :: Render(NodeKey(id));
    forall i, j | 0 <= i < j < |ids| ensures TextLess(NamesOf(ids)[i], NamesOf(ids)[j]) { NodeKeyOrder(ids[i], ids[j]); }
    forall name ensures name in names <==> name in NamesOf(ids) {
      if name in names {
        var id :| id in nodes && name == Render(NodeKey(id));
        var i :| 0 <= i < |ids| && ids[i] == id;
        assert NamesOf(ids)[i] == name;
      }
      if name in NamesOf(ids) {
        var i :| 0 <= i < |ids| && NamesOf(ids)[i] == name;
        assert ids[i] in nodes.Keys;
      }
    }
    SortedTextLists(names);
    ListingUnique(NamesOf(ids), SortedText(names), names, TextLess);
  }

  lemma {:induction false} FetchIsViews(nodes: map<string, Node>, ids: seq<string>, now: nat)
    requires forall i :: 0 <= i < |ids| ==> ids[i] in nodes
    ensures Fetch(nodes, NamesOf(ids), now) == Views(nodes, ids, now)
    decreases |ids|
  {
    if ids != [] {
      var name := NamesOf(ids)[0];
      assert name == "node" + [':'] + ids[0] && name[5..] == ids[0];
      FetchIsViews(nodes, ids[1..], now);
      assert NamesOf(ids)[1..] == NamesOf(ids[1..]);
      assert Views(nodes, ids, now) == [ViewOf(nodes[ids[0]], now)] + Views(nodes, ids[1..], now);
    }
  }

  /** The coordinator's page has the same nodes as the mock's; its cursor is a key rather than an id. */
  lemma WorkerPageAt(nodes: map<string, Node>, now: nat, limit: int, k: nat, ids: seq<string>, cursor: string)
    requires limit >= 1 && ids == SortedText(nodes.Keys) && k <= |ids|
    requires if k == 0 then cursor == "" else cursor == Render(NodeKey(ids[k - 1])) != ""
    ensures var end := Min(k + Clamp(limit), |ids|);
            ListNodes(nodes, now, limit, cursor) ==
              Page(Views(nodes, ids[k..end], now), if end < |ids| then Render(NodeKey(ids[end - 1])) else "")
  {
    hide TextLess, SortedText, After, Render, Fetch, ListNodes, Clamp, Views;
    NodeKeysInOrder(nodes);
    ClampPositive(limit);
    var all := NamesOf(ids);
    LeftAfter(all, cursor, k);
    var (left, end) := (all[k..], Min(k + Clamp(limit), |ids|));
    assert k == 0 ==> left == all;
    WorkerPageOf(nodes, now, limit, all, cursor, left);
    assert Take(left, Clamp(limit)) == all[k..end];
    NamesSlice(ids, k, end);
    FetchIsViews(nodes, ids[k..end], now);
  }

  lemma NamesSlice(ids: seq<string>, k: nat, end: nat)
    requires k <= end <= |ids|
    ensures NamesOf(ids)[k..end] == NamesOf(ids[k..end])
  {
    hide Render;
  }

  lemma WorkerPageOf(nodes: map<string, Node>, now: nat, limit: int, all: seq<string>, cursor: string, left: seq<string>)
    requires limit >= 1 && all == SortedText(set id | id in nodes :: Render(NodeKey(id)))
    requires left == if cursor == "" then all else After(all, cursor)
    ensures var page := Take(left, Clamp(limit));
            ListNodes(nodes, now, limit, cursor) ==
              Page(Fetch(nodes, page, now), if |left| > Clamp(limit) then page[|page| - 1] else "")
  {
    hide TextLess, SortedText, After, Render, Fetch;
  }

  // ---------------------------------------------------------------- the client loop

  datatype Server = Mock | Worker

  function Call(server: Server, nodes: map<string, Node>, now: nat, limit: int, cursor: string): Answer {
    if server.Mock? then MockListNodes(nodes, now, limit, cursor) else ListNodes(nodes, now, limit, cursor)
  }

  /** The cursor either server gives after the first `k` nodes. */
  function CursorAt(server: Server, ids: seq<string>, k: nat): string
    requires k <= |ids|
  {
    if k == 0 || k == |ids| then "" else if server.Mock? then ids[k - 1] else Render(NodeKey(ids[k - 1]))
  }

  lemma CallAt(server: Server, nodes: map<string, Node>, now: nat, limit: int, k: nat, ids: seq<string>)
    requires Table(nodes) && (server.Worker? ==> limit >= 1)
    requires ids == SortedText(nodes.Keys) && k <= |ids| && (k > 0 ==> k < |ids|)
    ensures var end := Min(k + Clamp(limit), |ids|);
            Call(server, nodes, now, limit, CursorAt(server, ids, k))
            == Page(Views(nodes, ids[k..end], now), CursorAt(server, ids, end))
  {
    hide MockListNodes, ListNodes, Clamp, TextLess, Render, SortedText;
    CursorEmpty(server, nodes, k);
    ClampPositive(limit);
    if server.Mock? {
      MockPageAt(nodes, now, limit, k, ids, CursorAt(server, ids, k));
    } else {
      WorkerPageAt(nodes, now, limit, k, ids, CursorAt(server, ids, k));
    }
  }

  lemma ClampPositive(limit: int)
    ensures 1 <= Clamp(limit) <= NODES_LIMIT_MAX && (limit >= 1 ==> Clamp(limit) == Min(limit, NODES_LIMIT_MAX))
  {
  }

  lemma CursorEmpty(server: Server, nodes: map<string, Node>, k: nat)
    requires Table(nodes)
    requires k <= |SortedText(nodes.Keys)|
    ensures CursorAt(server, SortedText(nodes.Keys), k) == "" <==> k == 0 || k == |SortedText(nodes.Keys)|
  {
    var ids := SortedText(nodes.Keys);
    if 0 < k < |ids| { assert ids[k - 1] in nodes.Keys && IsNodeId(ids[k - 1]); }
  }

  /** How many nodes a client sees that asks for so many a page: a hundred pages of 1 to 200 nodes. */
  function Reach(limit: int): nat {
    if limit < 1 then 100 else if limit > 200 then 20_000 else 100 * limit
  }

  lemma ReachIsPages(limit: int)
    ensures MAX_NODE_PAGES * Clamp(limit) == Reach(limit)
  {
  }

  /**
   * `GridClient.nodes`: at most a hundred pages, following cursors. Against either server it returns
   * the first nodes in id order, each once, up to a hundred pages' worth.
   */
  method Nodes(server: Server, nodes: map<string, Node>, now: nat, limit: int) returns (r: Answer, calls: nat)
    requires Table(nodes)
    ensures server.Worker? && limit < 1 ==> r == Refusal(400)
    ensures server.Mock? || limit >= 1 ==>
              var ids := SortedText(nodes.Keys);
              r == Page(Views(nodes, ids[..Min(|ids|, Reach(limit))], now), "")
    ensures calls <= 100
  {
    hide Call, TextLess, CursorAt, Clamp, SortedText, Table, Views, Reach;
    ghost var ids := SortedText(nodes.Keys);
    ghost var (size, k) := (Clamp(limit), 0);
    var out: seq<View> := [];
    var cursor := "";
    calls := 0;
    ClampPositive(limit);
    CursorEmpty(server, nodes, 0);
    for page := 0 to MAX_NODE_PAGES
      invariant calls == page
      invariant page > 0 ==> server.Mock? || limit >= 1
      invariant k == Min(page * size, |ids|) && (page > 0 ==> k < |ids|)
      invariant cursor == CursorAt(server, ids, k)
      invariant out == Views(nodes, ids[..k], now)
    {
      if server.Worker? && limit < 1 { WorkerRefuses(nodes, now, limit, cursor); } else { CallAt(server, nodes, now, limit, k, ids); }
      var doc := Call(server, nodes, now, limit, cursor);
      calls := calls + 1;
      if doc.Refusal? { return doc, calls; }
      out := out + doc.nodes;
      cursor := doc.cursor;
      ghost var end := Min(k + size, |ids|);
      ViewsFurther(nodes, ids, k, end, now);
      OnePageOn(page, size, k, |ids|);
      k := end;
      CursorEmpty(server, nodes, k);
      if cursor == "" {
        assert k == |ids|;
        break;
      }
    }
    ReachIsPages(limit);
    assert k == Min(|ids|, Reach(limit));
    return Page(out, ""), calls;
  }

  lemma ViewsFurther(nodes: map<string, Node>, ids: seq<string>, k: nat, end: nat, now: nat)
    requires k <= end <= |ids| && forall i :: 0 <= i < |ids| ==> ids[i] in nodes
    ensures Views(nodes, ids[..k], now) + Views(nodes, ids[k..end], now) == Views(nodes, ids[..end], now)
  {
  }

  lemma OnePageOn(page: nat, size: nat, k: nat, n: nat)
    requires page < MAX_NODE_PAGES && k == Min(page * size, n)
    ensures Min(k + size, n) == Min((page + 1) * size, n)
    ensures (page + 1) * size <= MAX_NODE_PAGES * size
  {
    assert (page + 1) * size == page * size + size;
    var rest := MAX_NODE_PAGES - page - 1;
    assert MAX_NODE_PAGES * size == (page + 1) * size + rest * size;
  }

  lemma WorkerRefuses(nodes: map<string, Node>, now: nat, limit: int, cursor: string)
    requires limit < 1
    ensures Call(Worker, nodes, now, limit, cursor) == Refusal(400)
  {
  }
}
