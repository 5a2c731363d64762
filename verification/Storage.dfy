/** The key/value namespace the coordinator is given: string keys, prefix listing, no transactions. */
module Storage {
  import opened Base
  import opened Keys
  import opened Store
  import opened Ordering

  /** A record the coordinator writes: a well-formed key, a value of its family, ids that are ids. */
  predicate Kept(k: Key, v: Value) {
    && WellFormed(k) && Fits(k, v)
    && (k.QueueKey? ==> k.slot.createdMs < PADDED_LIMIT)
    && (v.JobValue? ==> IsJobId(v.job.jobId) && IsNodeId(v.job.toNode) && v.job.createdMs < PADDED_LIMIT)
    && (v.EntryValue? && v.entry.Some? ==> IsJobId(v.entry.value))
  }

  /** An entry whose time fits the padding. */
  predicate Padding(s: Slot) {
    WellFormedSlot(s) && s.createdMs < PADDED_LIMIT
  }

  /** The string-keyed store and the typed tables hold the same records. */
  ghost predicate Represents(kv: map<string, Value>, st: State) {
    && (forall k :: Lookup(st, k).Some? ==> Kept(k, Lookup(st, k).value))
    && (forall k :: WellFormed(k) && Render(k) in kv ==> Lookup(st, k) == Some(kv[Render(k)]))
    && (forall k :: Lookup(st, k).Some? ==> Render(k) in kv)
    && (forall name :: name in kv ==> Names(name, st))
  }

  ghost predicate Names(name: string, st: State) {
    exists k :: WellFormed(k) && Render(k) == name && Lookup(st, k).Some?
  }

  lemma PutRepresents(kv: map<string, Value>, st: State, k: Key, v: Value)
    requires Represents(kv, st) && Kept(k, v)
    ensures Represents(kv[Render(k) := v], Put(st, k, v))
  {
    hide Render, WellFormed, Put, Lookup;
    var (kv', st') := (kv[Render(k) := v], Put(st, k, v));
    forall j ensures Lookup(st', j) == if j == k then Some(v) else Lookup(st, j) { LookupPut(st, k, v, j); }
    forall j | WellFormed(j) && Render(j) in kv' ensures Lookup(st', j) == Some(kv'[Render(j)]) {
      if Render(j) == Render(k) { KeysInjective(j, k); }
    }
    forall name | name in kv' ensures Names(name, st') {
      if name == Render(k) {
        assert Lookup(st', k).Some?;
      } else {
        var j :| WellFormed(j) && Render(j) == name && Lookup(st, j).Some?;
        assert Lookup(st', j).Some?;
      }
    }
  }

  lemma DeleteRepresents(kv: map<string, Value>, st: State, k: Key)
    requires Represents(kv, st) && WellFormed(k)
    ensures Represents(kv - {Render(k)}, Delete(st, k))
  {
    hide Render, WellFormed, Delete, Lookup;
    var (kv', st') := (kv - {Render(k)}, Delete(st, k));
    forall j ensures Lookup(st', j) == if j == k then None else Lookup(st, j) { LookupDelete(st, k, j); }
    forall j | Lookup(st', j).Some? ensures Render(j) in kv' {
      if Render(j) == Render(k) { KeysInjective(j, k); }
    }
    forall name | name in kv' ensures Names(name, st') {
      var j :| WellFormed(j) && Render(j) == name && Lookup(st, j).Some?;
      assert Lookup(st', j).Some?;
    }
  }

  // ---------------------------------------------------------------- prefix listing

  /** The store's own listing: names under a prefix, in text order. */
  function Listing(kv: map<string, Value>, prefix: string, limit: nat): seq<string> {
    Take(SortedText(set name | name in kv && prefix <= name), limit)
  }

  function RenderAll(slots: seq<Slot>): (names: seq<string>)
    ensures |names| == |slots|
    ensures forall i :: 0 <= i < |slots| ==> names[i] == RenderSlot(slots[i])
  {
    seq(|slots|, i requires 0 <= i < |slots| => RenderSlot(slots[i]))
  }

  lemma UnderQueuePrefix(kv: map<string, Value>, st: State, node: string, name: string)
    requires Represents(kv, st) && IsNodeId(node)
    ensures name in kv && QueuePrefix(node) <= name <==> exists s :: s in Queue(st, node) && RenderSlot(s) == name
  {
    if name in kv && QueuePrefix(node) <= name {
      assert Names(name, st);
      var k :| WellFormed(k) && Render(k) == name && Lookup(st, k).Some?;
      PrefixSelectsNode(node, k);
      assert k.slot in Queue(st, node) && RenderSlot(k.slot) == name;
    }
    if s :| s in Queue(st, node) && RenderSlot(s) == name {
      assert Lookup(st, QueueKey(s)).Some?;
      PrefixSelectsNode(node, QueueKey(s));
    }
  }

  lemma RenderedInOrder(st: State, node: string, slots: seq<Slot>, i: nat, j: nat)
    requires Lists(slots, Queue(st, node), Earlier) && i < j < |slots|
    requires forall s :: s in Queue(st, node) ==> Padding(s)
    ensures TextLess(RenderAll(slots)[i], RenderAll(slots)[j])
  {
    assert slots[i] in Queue(st, node) && slots[j] in Queue(st, node);
    QueueOrderIsAge(slots[i], slots[j]);
  }

  lemma QueueIsWellFormed(kv: map<string, Value>, st: State, node: string)
    requires Represents(kv, st)
    ensures forall s :: s in Queue(st, node) ==> Padding(s)
  {
    forall s | s in Queue(st, node) ensures Padding(s) {
      assert Lookup(st, QueueKey(s)).Some?;
    }
  }

  lemma RenderedListing(kv: map<string, Value>, st: State, node: string, slots: seq<Slot>, names: set<string>)
    requires Represents(kv, st) && IsNodeId(node) && Lists(slots, Queue(st, node), Earlier)
    requires names == set name | name in kv && QueuePrefix(node) <= name
    ensures Lists(RenderAll(slots), names, TextLess)
  {
    QueueIsWellFormed(kv, st, node);
    forall i, j | 0 <= i < j < |slots| ensures TextLess(RenderAll(slots)[i], RenderAll(slots)[j]) {
      RenderedInOrder(st, node, slots, i, j);
    }
    forall name ensures name in names <==> name in RenderAll(slots) {
      UnderQueuePrefix(kv, st, node, name);
      if s :| s in Queue(st, node) && RenderSlot(s) == name {
        var i :| 0 <= i < |slots| && slots[i] == s;
        assert RenderAll(slots)[i] == name;
      }
      if name in RenderAll(slots) {
        var i :| 0 <= i < |slots| && RenderAll(slots)[i] == name;
        assert slots[i] in Queue(st, node);
      }
    }
  }

  lemma SameListing(slots: seq<Slot>, text: seq<string>, names: set<string>)
    requires Lists(RenderAll(slots), names, TextLess) && text == SortedText(names)
    ensures RenderAll(slots) == text
  {
    hide TextLess;
    SortedTextLists(names);
    ListingUnique(RenderAll(slots), text, names, TextLess);
  }

  lemma RenderTake(slots: seq<Slot>, limit: nat)
    ensures Take(RenderAll(slots), limit) == RenderAll(Take(slots, limit))
  {
  }

  /** Listing a node's queue prefix gives exactly that node's entries, oldest first. */
  lemma ListingIsQueue(kv: map<string, Value>, st: State, node: string, limit: nat)
    requires Represents(kv, st) && IsNodeId(node)
    ensures Listing(kv, QueuePrefix(node), limit) == RenderAll(ListQueue(st, node, limit))
  {
    hide Represents, TextLess, QueuePrefix, Queue, RenderAll, SortedText, Earlier;
    var names := set name | name in kv && QueuePrefix(node) <= name;
    assert forall s :: s in Queue(st, node) ==> s.node == node by { QueueNode(st, node); }
    EarlierTotal(Queue(st, node), node);
    var slots := SortedSeq(Queue(st, node), Earlier);
    RenderedListing(kv, st, node, slots, names);
    SameListing(slots, SortedText(names), names);
    RenderTake(slots, limit);
  }

  lemma QueueNode(st: State, node: string)
    ensures forall s :: s in Queue(st, node) ==> s.node == node
  {
  }

  // ---------------------------------------------------------------- the object

  class Namespace {
    var kv: map<string, Value>
    ghost var view: State

    ghost predicate Valid()
      reads this
    {
      Represents(kv, view)
    }

    constructor ()
      ensures Valid() && view == EMPTY
    {
      kv, view := map[], EMPTY;
    }

    method Get(name: string, ghost k: Key) returns (v: Option<Value>)
      requires Valid() && WellFormed(k) && name == Render(k)
      ensures v == Lookup(view, k)
      ensures v.Some? ==> Kept(k, v.value)
    {
      return if name in kv then Some(kv[name]) else None;
    }

    method Put(name: string, v: Value, ghost k: Key)
      requires Valid() && Kept(k, v) && name == Render(k)
      modifies this
      ensures Valid() && view == Store.Put(old(view), k, v) && kv == old(kv)[name := v]
    {
      PutRepresents(kv, view, k, v);
      kv := kv[name := v];
      view := Store.Put(view, k, v);
    }

    method Delete(name: string, ghost k: Key)
      requires Valid() && WellFormed(k) && name == Render(k)
      modifies this
      ensures Valid() && view == Store.Delete(old(view), k) && kv == old(kv) - {name}
    {
      DeleteRepresents(kv, view, k);
      kv := kv - {name};
      view := Store.Delete(view, k);
    }

    /** `storage.list` of one node's queue prefix. */
    method ListQueue(prefix: string, limit: nat, ghost node: string) returns (names: seq<string>)
      requires Valid() && IsNodeId(node) && prefix == QueuePrefix(node)
      ensures names == RenderAll(Store.ListQueue(view, node, limit))
      ensures forall s :: s in Queue(view, node) ==> Padding(s)
    {
      ListingIsQueue(kv, view, node, limit);
      QueueIsWellFormed(kv, view, node);
      return Listing(kv, prefix, limit);
    }
  }
}
