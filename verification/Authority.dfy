/** Who can change what: key custody, refusals, one node's reach, and one job per spent member nonce. */
module Authority {
  import opened Base
  import opened Keys
  import opened Store
  import opened Handlers
  import opened Shapes
  import opened Index
  import opened Leases
  import opened Cards
  import opened JsonValue
  import Replay

  // ---------------------------------------------------------------- key custody

  /** The request is a registration of `node` signed under `key`. */
  predicate Rotates(env: Env, ev: Event, node: string, key: string) {
    && ev.Handle? && ev.call.DoRegister? && ev.req.nodeId == node
    && CheckHeaders(env, ev.req, ev.req.sig, key, ev.now) == Genuine
  }

  predicate SameIdentity(a: Node, b: Node) {
    a.verifyKey == b.verifyKey && a.pubkey == b.pubkey
  }

  /** One request leaves a node's keys alone, or is that node's registration signed with its current key. */
  lemma KeysMoveByOwner(env: Env, st: State, ev: Event, node: string)
    requires ev.Handle? && node in st.nodes
    ensures var after := Step(env, st, ev).state.nodes;
            && node in after
            && (SameIdentity(after[node], st.nodes[node]) || Rotates(env, ev, node, st.nodes[node].verifyKey))
  {
    match ev.call {
      case DoRegister(body) => RegisterShape(env, st, ev.req, body, ev.now);
      case DoHeartbeat(body) => HeartbeatShape(env, st, ev.req, body, ev.now);
      case _ => JobCallsSpareNodes(env, st, ev);
    }
  }

  lemma JobCallsSpareNodes(env: Env, st: State, ev: Event)
    requires ev.Handle? && (ev.call.DoSubmit? || ev.call.DoPull? || ev.call.DoResult?)
    ensures Step(env, st, ev).state.nodes == st.nodes
  {
    match ev.call {
      case DoSubmit(oversize, body, jobId) =>
        if !oversize { SubmitShape(st, MemberGate(env, ev.req, ev.now), ev.req.memberSig.nonce, body, jobId, ev.now); }
      case DoPull(node) =>
        PullShape(env, st, ev.req, node, ev.now);
        var st1 := Noted(st, ev.req, ev.now);
        LoopFrame(st1, ListQueue(st1, node, PULL_MAX * 4), node, ev.now, PULL_MAX);
      case DoResult(body) => ResultSparesNodes(env, st, ev.req, body, ev.now);
    }
  }

  lemma ResultSparesNodes(env: Env, st: State, req: Request, checked: Checked<ResultBody>, now: nat)
    ensures Result(env, st, req, checked, now).state.nodes == st.nodes
  {
    if req.nodeId in st.nodes { SignatureShape(env, st, req, st.nodes[req.nodeId].verifyKey, now); }
  }

  /** No event of the run lets the environment expire this node's record. */
  predicate NodeLasts(events: seq<Event>, node: string) {
    forall i :: 0 <= i < |events| ==> !(events[i].Expire? && events[i].key == NodeKey(node))
  }

  /**
   * Key custody over a whole run: a registered node keeps both its keys until a registration signed
   * with the very verify key it holds, whatever anyone else sends in between.
   */
  lemma {:induction false} KeyCustody(env: Env, st: State, events: seq<Event>, node: string)
    requires node in st.nodes && NodeLasts(events, node)
    requires forall i :: 0 <= i < |events| ==> !Rotates(env, events[i], node, st.nodes[node].verifyKey)
    ensures var end := Run(env, st, events).nodes; node in end && SameIdentity(end[node], st.nodes[node])
    decreases |events|
  {
    hide Step, MemberGate;
    if events != [] {
      var next := Step(env, st, events[0]).state;
      if events[0].Handle? { KeysMoveByOwner(env, st, events[0], node); } else { StoreEventsSpareNode(env, st, events[0], node); }
      assert forall i :: 0 <= i < |events[1..]| ==> events[1..][i] == events[i + 1];
      KeyCustody(env, next, events[1..], node);
    }
  }

  lemma StoreEventsSpareNode(env: Env, st: State, ev: Event, node: string)
    requires !ev.Handle? && node in st.nodes && !(ev.Expire? && ev.key == NodeKey(node))
    ensures var after := Step(env, st, ev).state.nodes; node in after && after[node] == st.nodes[node]
  {
  }

  /** A node id not yet taken is taken only by a registration signed with the key it brings. */
  lemma NewNodeProvesItsKey(env: Env, st: State, ev: Event, node: string)
    requires node !in st.nodes && node in Step(env, st, ev).state.nodes
    ensures ev.Handle? && ev.call.DoRegister?
            && Rotates(env, ev, node, Step(env, st, ev).state.nodes[node].verifyKey)
  {
    hide CheckHeaders, IsKey32, SubmitThrough, Pull, Result;
    if ev.Handle? {
      match ev.call {
        case DoRegister(body) => RegisterShape(env, st, ev.req, body, ev.now);
        case DoHeartbeat(body) => HeartbeatShape(env, st, ev.req, body, ev.now);
        case _ => JobCallsSpareNodes(env, st, ev);
      }
    }
  }

  // ---------------------------------------------------------------- refusals

  /** A refused request changes nothing but nonce records. */
  lemma RefusedChangesNothing(env: Env, st: State, ev: Event)
    requires ev.Handle? && Self(st.jobs) && Step(env, st, ev).reply.Refused?
    ensures SameButNonces(Step(env, st, ev).state, st)
  {
    match ev.call {
      case DoRegister(body) => RegisterShape(env, st, ev.req, body, ev.now);
      case DoHeartbeat(body) => HeartbeatShape(env, st, ev.req, body, ev.now);
      case DoSubmit(oversize, body, jobId) =>
        if !oversize { SubmitShape(st, MemberGate(env, ev.req, ev.now), ev.req.memberSig.nonce, body, jobId, ev.now); }
      case DoPull(node) => PullShape(env, st, ev.req, node, ev.now);
      case DoResult(body) => ResultShape(env, st, ev.req, body, ev.now);
    }
  }

  // ---------------------------------------------------------------- one node's reach

  /** Jobs and index entries of every node but one are the same in both stores. */
  ghost predicate OthersSame(a: State, b: State, node: string) {
    && a.jobs.Keys == b.jobs.Keys
    && (forall id :: id in a.jobs && a.jobs[id].toNode != node ==> b.jobs[id] == a.jobs[id])
    && (forall id :: id in a.jobs && a.jobs[id].toNode == node ==> b.jobs[id].toNode == node)
    && (forall k: Slot :: k.node != node ==> (k in a.index <==> k in b.index) && (k in a.index ==> b.index[k] == a.index[k]))
  }

  lemma OthersTransitive(a: State, b: State, c: State, node: string)
    requires OthersSame(a, b, node) && OthersSame(b, c, node)
    ensures OthersSame(a, c, node)
  {
  }

  lemma RoundSparesOthers(st: State, k: Slot, node: string, now: nat)
    requires k.node == node
    ensures OthersSame(st, PullStep(st, k, node, now).state, node)
  {
    var out := PullStep(st, k, node, now).state;
    match Decide(st, k, node, now) {
      case Drop => EntryRemoved(st, out, k, node);
      case Skip => assert out == st;
      case GiveUp =>
        var mid := Put(st, JobKey(st.index[k].value), JobValue(GivenUp(st.jobs[st.index[k].value], now)));
        OwnJobChanged(st, mid, st.index[k].value, node);
        EntryRemoved(mid, out, k, node);
        OthersTransitive(st, mid, out, node);
      case Deliver => OwnJobChanged(st, out, st.index[k].value, node);
    }
  }

  lemma EntryRemoved(st: State, out: State, k: Slot, node: string)
    requires k.node == node && out.jobs == st.jobs && out.index == st.index - {k}
    ensures OthersSame(st, out, node)
  {
  }

  lemma OwnJobChanged(st: State, out: State, id: string, node: string)
    requires id in st.jobs && st.jobs[id].toNode == node && id in out.jobs && out.jobs[id].toNode == node
    requires out.jobs == st.jobs[id := out.jobs[id]] && out.index == st.index
    ensures OthersSame(st, out, node)
  {
  }

  lemma {:induction false} LoopSparesOthers(st: State, keys: seq<Slot>, node: string, now: nat, room: nat)
    requires forall i :: 0 <= i < |keys| ==> keys[i].node == node
    ensures OthersSame(st, PullLoop(st, keys, node, now, room).state, node)
    decreases |keys|
  {
    hide PullStep;
    if keys != [] && room > 0 {
      var next, left, rest := LoopUnfold(st, keys, node, now, room);
      RoundSparesOthers(st, keys[0], node, now);
      LoopSparesOthers(next, keys[1..], node, now, left);
      OthersTransitive(st, next, rest.state, node);
    }
  }

  /** A pull or a result by one node touches no other node's jobs and no other node's queue. */
  lemma NodeReach(env: Env, st: State, ev: Event)
    requires ev.Handle? && (ev.call.DoPull? || ev.call.DoResult?) && Self(st.jobs)
    ensures OthersSame(st, Step(env, st, ev).state, ev.req.nodeId)
  {
    hide Pull, Result, OthersSame;
    match ev.call {
      case DoPull(node) => PullReach(env, st, ev.req, node, ev.now);
      case DoResult(body) => ResultReach(env, st, ev.req, body, ev.now);
    }
  }

  lemma PullReach(env: Env, st: State, req: Request, node: string, now: nat)
    ensures OthersSame(st, Pull(env, st, req, node, now).state, req.nodeId)
  {
    hide Pull, PullLoop, CheckHeaders;
    PullShape(env, st, req, node, now);
    if Pull(env, st, req, node, now).reply.Pulled? {
      var st1 := Noted(st, req, now);
      LoopSparesOthers(st1, ListQueue(st1, node, PULL_MAX * 4), node, now, PULL_MAX);
    }
  }

  lemma ResultReach(env: Env, st: State, req: Request, checked: Checked<ResultBody>, now: nat)
    requires Self(st.jobs)
    ensures OthersSame(st, Result(env, st, req, checked, now).state, req.nodeId)
  {
    hide Result, CheckHeaders;
    ResultShape(env, st, req, checked, now);
    var out := Result(env, st, req, checked, now);
    if out.reply == Accepted(false) {
      var id := checked.value.jobId;
      var mid := out.state.(index := st.index);
      OwnJobChanged(st, mid, id, req.nodeId);
      EntryRemoved(mid, out.state, SlotOf(st.jobs[id]), req.nodeId);
      OthersTransitive(st, mid, out.state, req.nodeId);
    }
  }

  // ---------------------------------------------------------------- jobs and spent member nonces

  /** A member key and a nonce it signed. */
  type Author = (string, string)

  /** In this store the event creates job `id`, for a member key that passed the gate and a nonce it had not spent. */
  ghost predicate CreatesFor(env: Env, st: State, ev: Event, id: string, a: Author) {
    && ev.Handle? && ev.call.DoSubmit? && ev.call.jobId == id
    && MemberGate(env, ev.req, ev.now) == ByMember(a.0) && ev.req.memberSig.nonce == a.1
    && a !in st.memberNonces && Step(env, st, ev).reply == Submitted(id, false)
  }

  /** Who is behind each job once the event has been handled. */
  ghost function NextAuthors(env: Env, st: State, ev: Event, authors: map<string, Author>): map<string, Author> {
    if ev.Handle? && ev.call.DoSubmit? && Step(env, st, ev).reply == Submitted(ev.call.jobId, false)
       && MemberGate(env, ev.req, ev.now).ByMember? then
      authors[ev.call.jobId := (MemberGate(env, ev.req, ev.now).key, ev.req.memberSig.nonce)]
    else authors
  }

  ghost function Authors(env: Env, st: State, events: seq<Event>, authors: map<string, Author>): map<string, Author>
    decreases |events|
  {
    if events == [] then authors
    else Authors(env, Step(env, st, events[0]).state, events[1..], NextAuthors(env, st, events[0], authors))
  }

  /** Every job has an author, no two share one, and every author's nonce is spent. */
  ghost predicate Attributed(st: State, authors: map<string, Author>) {
    && authors.Keys == st.jobs.Keys
    && (forall a, b :: a in authors && b in authors && authors[a] == authors[b] ==> a == b)
    && (forall a :: a in authors ==> authors[a] in st.memberNonces)
  }

  lemma SubmitAttributes(env: Env, st: State, ev: Event, authors: map<string, Author>)
    requires env.clubKey != "" && Attributed(st, authors) && Handled(st, ev) && ev.call.DoSubmit?
    ensures Attributed(Step(env, st, ev).state, NextAuthors(env, st, ev, authors))
  {
    hide MemberGate, SubmitThrough;
    var gate := MemberGate(env, ev.req, ev.now);
    GateIsClosed(env, ev.req, ev.now);
    if !ev.call.oversize {
      AttributedThrough(st, authors, gate, ev.req.memberSig.nonce, ev.call.submit, ev.call.jobId, ev.now);
    }
  }

  lemma AttributedThrough(
      st: State, authors: map<string, Author>, gate: Gate, nonce: string, checked: Checked<SubmitBody>, jobId: string, now: nat)
    requires Attributed(st, authors) && jobId !in st.jobs && !gate.Open?
    ensures var out := SubmitThrough(st, gate, nonce, checked, jobId, now);
            Attributed(out.state,
              if out.reply == Submitted(jobId, false) && gate.ByMember? then authors[jobId := (gate.key, nonce)] else authors)
  {
    hide SubmitThrough;
    var out := SubmitThrough(st, gate, nonce, checked, jobId, now);
    SubmitShape(st, gate, nonce, checked, jobId, now);
    if out.reply == Submitted(jobId, false) {
      OneMoreAuthor(st, out.state, authors, jobId, (gate.key, nonce));
    } else {
      Replay.MemberNoncesOfSubmit(st, gate, nonce, checked, jobId, now);
    }
  }

  lemma OneMoreAuthor(st: State, out: State, authors: map<string, Author>, id: string, a: Author)
    requires Attributed(st, authors) && id !in st.jobs && a !in st.memberNonces
    requires out.jobs.Keys == st.jobs.Keys + {id} && out.memberNonces.Keys == st.memberNonces.Keys + {a}
    ensures Attributed(out, authors[id := a])
  {
  }

  lemma GateIsClosed(env: Env, req: Request, now: nat)
    requires env.clubKey != ""
    ensures !MemberGate(env, req, now).Open?
  {
  }

  /** Node calls keep the job ids and every spent member nonce. */
  lemma OthersKeepAuthors(env: Env, st: State, ev: Event)
    requires ev.Handle? && !ev.call.DoSubmit? && Self(st.jobs)
    ensures var next := Step(env, st, ev).state;
            next.jobs.Keys == st.jobs.Keys && next.memberNonces == st.memberNonces
  {
    match ev.call {
      case DoPull(node) =>
        PullShape(env, st, ev.req, node, ev.now);
        var st1 := Noted(st, ev.req, ev.now);
        LoopFrame(st1, ListQueue(st1, node, PULL_MAX * 4), node, ev.now, PULL_MAX);
      case DoResult(body) => ResultShape(env, st, ev.req, body, ev.now);
      case _ => NodeCallsSpareJobs(env, st, ev);
    }
  }

  lemma {:induction false} RunAttributes(env: Env, st: State, events: seq<Event>, authors: map<string, Author>)
    requires env.clubKey != "" && Inv(st) && Attributed(st, authors) && HandledRun(env, st, events)
    ensures Attributed(Run(env, st, events), Authors(env, st, events, authors))
    decreases |events|
  {
    hide Step, MemberGate;
    if events != [] {
      var ev := events[0];
      StepKeepsInv(env, st, ev);
      if ev.call.DoSubmit? {
        SubmitAttributes(env, st, ev, authors);
      } else {
        OthersKeepAuthors(env, st, ev);
      }
      RunAttributes(env, Step(env, st, ev).state, events[1..], NextAuthors(env, st, ev, authors));
    }
  }

  lemma NewAuthorIsUnspent(env: Env, st: State, ev: Event, authors: map<string, Author>, id: string)
    requires id in NextAuthors(env, st, ev, authors)
    ensures (id in authors && NextAuthors(env, st, ev, authors)[id] == authors[id])
            || CreatesFor(env, st, ev, id, NextAuthors(env, st, ev, authors)[id])
  {
    hide MemberGate, SubmitThrough;
    if ev.Handle? && ev.call.DoSubmit? && !ev.call.oversize {
      SubmitShape(st, MemberGate(env, ev.req, ev.now), ev.req.memberSig.nonce, ev.call.submit, ev.call.jobId, ev.now);
    }
  }

  /** The i-th event of the run, in the store it meets, creates the job for this author. */
  ghost predicate CreatedAt(env: Env, st: State, events: seq<Event>, i: nat, id: string, a: Author) {
    i < |events| && CreatesFor(env, Replay.At(env, st, events, i), events[i], id, a)
  }

  lemma CreatedLater(env: Env, st: State, events: seq<Event>, i: nat, id: string, a: Author)
    requires events != [] && CreatedAt(env, Step(env, st, events[0]).state, events[1..], i, id, a)
    ensures CreatedAt(env, st, events, i + 1, id, a)
  {
    hide Step, CreatesFor;
    assert events[..i + 1][1..] == events[1..][..i];
  }

  lemma CreatedNow(env: Env, st: State, events: seq<Event>, id: string, a: Author)
    requires events != [] && CreatesFor(env, st, events[0], id, a)
    ensures CreatedAt(env, st, events, 0, id, a)
  {
    hide CreatesFor;
    assert events[..0] == [];
  }

  /** Whoever the run ends up naming for a job was named before it, or by the event that created the job. */
  lemma {:induction false} AuthorsAreGenuine(env: Env, st: State, events: seq<Event>, authors: map<string, Author>, id: string)
    requires id in Authors(env, st, events, authors)
    ensures var a := Authors(env, st, events, authors)[id];
            (id in authors && authors[id] == a) || exists i: nat :: CreatedAt(env, st, events, i, id, a)
    decreases |events|
  {
    hide Step, CreatesFor, NextAuthors;
    if events != [] {
      var (after, next, rest) := (Step(env, st, events[0]).state, NextAuthors(env, st, events[0], authors), events[1..]);
      var a := Authors(env, st, events, authors)[id];
      AuthorsAreGenuine(env, after, rest, next, id);
      if id in next && next[id] == a {
        NewAuthorIsUnspent(env, st, events[0], authors, id);
        if !(id in authors && authors[id] == a) { CreatedNow(env, st, events, id, a); }
      } else {
        var i: nat :| CreatedAt(env, after, rest, i, id, a);
        CreatedLater(env, st, events, i, id, a);
      }
    }
  }

  /**
   * With a club key set and nothing expiring, jobs map one to one into accepted pairs of member key
   * and nonce: every job was created, in some store of the run, by an accepted submit for its own pair,
   * which had not been spent before.
   */
  lemma OneJobPerMemberNonce(env: Env, events: seq<Event>)
    requires env.clubKey != "" && HandledRun(env, EMPTY, events)
    ensures var authors := Authors(env, EMPTY, events, map[]);
            && authors.Keys == Run(env, EMPTY, events).jobs.Keys
            && (forall a, b :: a in authors && b in authors && authors[a] == authors[b] ==> a == b)
            && (forall id :: id in authors ==> exists i: nat :: CreatedAt(env, EMPTY, events, i, id, authors[id]))
  {
    hide Step, MemberGate, CreatedAt;
    assert forall n :: Queue(EMPTY, n) == {};
    RunAttributes(env, EMPTY, events, map[]);
    forall id | id in Authors(env, EMPTY, events, map[])
      ensures exists i: nat :: CreatedAt(env, EMPTY, events, i, id, Authors(env, EMPTY, events, map[])[id])
    {
      AuthorsAreGenuine(env, EMPTY, events, map[], id);
    }
  }

  /** So every job of such a run was created under a member key on a card the club issued. */
  lemma JobsNeedIssuedCards(env: Env, issued: set<Json>, events: seq<Event>, id: string)
    requires env.clubKey != "" && HandledRun(env, EMPTY, events) && OnlyIssued(env, issued)
    requires id in Run(env, EMPTY, events).jobs
    ensures exists i: nat, card, a: Author ::
              card in issued && HasText(card, "member_verify_key", a.0) && CreatedAt(env, EMPTY, events, i, id, a)
  {
    hide Step, MemberGate, OnlyIssued, HasText, Run, HandledRun;
    OneJobPerMemberNonce(env, events);
    var a := Authors(env, EMPTY, events, map[])[id];
    var i: nat :| CreatedAt(env, EMPTY, events, i, id, a);
    GateNeedsIssuedCard(env, issued, events[i].req, a.0, events[i].now);
    var card :| card in issued && HasText(card, "member_verify_key", a.0);
  }
}
