/**
 * Whole runs of one client and one honest node on a coordinator that also serves other nodes' requests.
 * Nobody else submits, and no result but the honest node's comes in its name.
 */
module HonestRun {
  import opened Base
  import opened Keys
  import opened JsonValue
  import opened Store
  import opened Handlers
  import opened Shapes
  import opened Leases
  import opened Party
  import opened EndToEnd
  import Counter
  import Authority
  import Ordering
  import Paging

  /**
   * The coordinator's store; the client's reply keys and last node listing; the envelopes the node holds; and
   * three records kept by nobody: the order behind every job, the jobs whose creating answer reached the client, and
   * the reply keys drawn so far.
   */
  datatype World = World(
    st: State, keys: map<string, Pair>, listed: seq<Paging.View>, hand: set<Envelope>,
    orders: map<string, Order>, heard: set<string>, drawn: set<string>)

  /** The setting of a run: libraries, the node's keys, its engine, the coordinator's environment. */
  datatype Setting = Setting(env: Env, c: Crypto, k: NodeKeys, engine: Engine)

  /**
   * The client lists the nodes; it submits under the key its listing shows, and its answer arrives or is lost; the node collects; the node answers an
   * envelope it holds, once or again; anything else happens. A `refusal` is the body check's.
   */
  datatype Act =
    | Look(now: nat)
    | Ask(now: nat, req: Request, order: Order, draft: string, refusal: Option<nat>, arrives: bool)
    | Collect(now: nat, req: Request)
    | Answer(now: nat, req: Request, e: Envelope, work: Work, refusal: Option<nat>)
    | Elsewhere(ev: Event)

  /** The request of a submit, sealed to the listed key. */
  function AskCall(s: Setting, a: Act, node: Paging.View): Event
    requires a.Ask?
  {
    Handle(a.now, a.req, DoSubmit(false,
      if a.refusal.Some? then Malformed(a.refusal.value) else Fields(BodyOf(s.c, node.nodeId, node.pubkey, a.order)), a.draft))
  }

  ghost function AnswerCall(s: Setting, a: Act): Option<Event>
    requires a.Answer?
  {
    var body := Process(s.c, s.k, s.engine, a.e, a.work);
    if body.None? then None
    else Some(Handle(a.now, a.req, DoResult(if a.refusal.Some? then Malformed(a.refusal.value) else Fields(body.value))))
  }

  /** What the client keeps of an answer. */
  function Kept(keys: map<string, Pair>, reply: Reply, pair: Pair): map<string, Pair> {
    if reply.Submitted? && reply.jobId != "" then SetDefault(keys, reply.jobId, pair) else keys
  }

  /** A submit that found the node. */
  ghost function Asked(s: Setting, w: World, a: Act, node: Paging.View): World
    requires a.Ask?
  {
    var out := Step(s.env, w.st, AskCall(s, a, node));
    var created := out.reply == Submitted(a.draft, false);
    World(out.state,
          if a.arrives then Kept(w.keys, out.reply, a.order.pair) else w.keys,
          w.listed,
          w.hand,
          if created then w.orders[a.draft := a.order] else w.orders,
          if created && a.arrives then w.heard + {a.draft} else w.heard,
          w.drawn + {a.order.pair.pub})
  }

  ghost function Next(s: Setting, w: World, a: Act): World {
    match a
    case Look(now) => w.(listed := Reported(w.st.nodes, now))
    case Ask(_, _, _, _, _, _) =>
      var node := Target(w.listed, s.k.id);
      if node.None? then w else Asked(s, w, a, node.value)
    case Collect(now, req) =>
      var out := Step(s.env, w.st, Handle(now, req, DoPull(s.k.id)));
      w.(st := out.state, hand := w.hand + if out.reply.Pulled? then (set e | e in out.reply.jobs) else {})
    case Answer(_, _, _, _, _) =>
      var call := AnswerCall(s, a);
      if call.None? then w else w.(st := Step(s.env, w.st, call.value).state)
    case Elsewhere(ev) => w.(st := Step(s.env, w.st, ev).state)
  }

  /**
   * What is assumed of each act: job ids and reply keys are drawn fresh; only the client submits; only
   * the honest node posts results in its name, for envelopes it holds; its keys are not rotated and its
   * record does not expire.
   */
  ghost predicate Honest(s: Setting, w: World, a: Act) {
    match a
    case Look(_) => true
    case Ask(_, _, order, draft, _, _) =>
      draft != "" && draft !in w.orders && order.pair.pub !in w.drawn && s.c.boxPair(order.pair.pub, order.pair.prv)
    case Collect(_, _) => true
    case Answer(_, _, e, work, _) => e in w.hand && Reportable(work)
    case Elsewhere(ev) =>
      if ev.Handle? then
        && !ev.call.DoSubmit?
        && (ev.call.DoResult? ==> ev.req.nodeId != s.k.id)
        && (ev.call.DoRegister? && s.k.id in w.st.nodes && s.k.id in Step(s.env, w.st, ev).state.nodes ==>
              Authority.SameIdentity(Step(s.env, w.st, ev).state.nodes[s.k.id], w.st.nodes[s.k.id]))
      else
        ev.Expire? ==> ev.key != NodeKey(s.k.id)
  }

  // ---------------------------------------------------------------- the invariant

  ghost predicate Rooted(s: Setting, nodes: map<string, Node>) {
    && Paging.Table(nodes)
    && s.k.id in nodes && nodes[s.k.id].pubkey == s.k.boxPub && nodes[s.k.id].verifyKey == s.k.verifyKey
  }

  /** Whatever listing the client last read, it seals to the node's own box key. */
  ghost predicate ListedRight(s: Setting, listed: seq<Paging.View>) {
    var node := Target(listed, s.k.id);
    node.Some? ==> node.value.nodeId == s.k.id && node.value.pubkey == s.k.boxPub
  }

  /** A stored job is the client's order, and when done it holds the honest answer. */
  ghost predicate Filed(s: Setting, orders: map<string, Order>, id: string, job: Job) {
    && id in orders && job.jobId == id && job.toNode == s.k.id && Carries(s.c, s.k, orders[id], job.blob, job.replyKey)
    && (job.status.Done? ==> Answered(s.c, s.k, s.engine, orders[id], id, job.result, job.receipt))
  }

  ghost predicate JobsFiled(s: Setting, orders: map<string, Order>, jobs: map<string, Job>) {
    forall id :: id in jobs ==> Filed(s, orders, id, jobs[id])
  }

  ghost predicate IdemFiled(orders: map<string, Order>, idem: map<(string, string), string>) {
    forall p :: p in idem ==> idem[p] in orders
  }

  ghost predicate HandFiled(s: Setting, orders: map<string, Order>, hand: set<Envelope>) {
    forall e :: e in hand ==> e.jobId in orders && Carries(s.c, s.k, orders[e.jobId], e.blob, e.replyKey)
  }

  ghost predicate OrdersDrawn(s: Setting, orders: map<string, Order>, drawn: set<string>) {
    forall id :: id in orders ==>
      id != "" && orders[id].pair.pub in drawn && s.c.boxPair(orders[id].pair.pub, orders[id].pair.prv)
  }

  /** The client holds a job's own key exactly when the answer that created the job reached it. */
  ghost predicate KeysMatch(s: Setting, orders: map<string, Order>, heard: set<string>, keys: map<string, Pair>, drawn: set<string>) {
    && heard <= keys.Keys <= orders.Keys
    && (forall id :: id in heard ==> keys[id] == orders[id].pair)
    && (forall id :: id in keys && id !in heard ==> keys[id].pub != orders[id].pair.pub)
    && (forall id :: id in keys ==> keys[id].pub in drawn && s.c.boxPair(keys[id].pub, keys[id].prv))
  }

  ghost predicate Sound(s: Setting, w: World) {
    && Rooted(s, w.st.nodes)
    && ListedRight(s, w.listed)
    && JobsFiled(s, w.orders, w.st.jobs)
    && IdemFiled(w.orders, w.st.idem)
    && HandFiled(s, w.orders, w.hand)
    && OrdersDrawn(s, w.orders, w.drawn)
    && KeysMatch(s, w.orders, w.heard, w.keys, w.drawn)
  }

  // ---------------------------------------------------------------- pulls

  /** Jobs only moved by pulls stay filed. */
  lemma LaterFiled(s: Setting, orders: map<string, Order>, before: map<string, Job>, after: map<string, Job>)
    requires JobsFiled(s, orders, before) && AllLater(before, after) && after.Keys <= before.Keys
    requires Counter.DoneJobs(after) <= Counter.DoneJobs(before)
    ensures JobsFiled(s, orders, after)
  {
    hide Carries;
    forall id | id in after ensures Filed(s, orders, id, after[id]) {
      assert Later(before[id], after[id]);
      if after[id].status.Done? {
        assert id in Counter.DoneJobs(after);
        assert after[id] == before[id];
      }
    }
  }

  lemma PullFiled(s: Setting, w: World, req: Request, node: string, now: nat)
    requires Sound(s, w)
    ensures var after := Pull(s.env, w.st, req, node, now).state;
            JobsFiled(s, w.orders, after.jobs) && after.nodes == w.st.nodes && after.idem == w.st.idem
  {
    hide Carries, Answered, Later, PullLoop, CheckSignature;
    PullShape(s.env, w.st, req, node, now);
    LaterPull(s.env, w.st, req, node, now);
    if Pull(s.env, w.st, req, node, now).reply.Pulled? {
      var st1 := Noted(w.st, req, now);
      LoopFrame(st1, ListQueue(st1, node, PULL_MAX * 4), node, now, PULL_MAX);
      Counter.LoopKeepsDone(st1, ListQueue(st1, node, PULL_MAX * 4), node, now, PULL_MAX);
    }
    LaterFiled(s, w.orders, w.st.jobs, Pull(s.env, w.st, req, node, now).state.jobs);
  }

  /** Every envelope names a stored job and carries its blob and reply key. */
  predicate Genuine(jobs: map<string, Job>, found: seq<Envelope>) {
    forall i :: 0 <= i < |found| ==>
      found[i].jobId in jobs && found[i].blob == jobs[found[i].jobId].blob && found[i].replyKey == jobs[found[i].jobId].replyKey
  }

  lemma {:induction false} LoopGenuine(st: State, keys: seq<Slot>, node: string, now: nat, room: nat)
    requires Self(st.jobs)
    ensures Genuine(st.jobs, PullLoop(st, keys, node, now, room).jobs)
    decreases |keys|
  {
    if keys != [] && room > 0 {
      var next, left, rest := LoopUnfold(st, keys, node, now, room);
      RoundGenuine(st, keys[0], node, now);
      LaterRound(st, keys[0], node, now);
      LoopGenuine(next, keys[1..], node, now, left);
    }
  }

  lemma RoundGenuine(st: State, k: Slot, node: string, now: nat)
    requires Self(st.jobs)
    ensures Genuine(st.jobs, PullStep(st, k, node, now).jobs)
    ensures Self(PullStep(st, k, node, now).state.jobs)
  {
    hide PullStep;
    RoundJobs(st, k, node, now);
  }

  lemma PulledGenuine(env: Env, st: State, req: Request, node: string, now: nat)
    requires Self(st.jobs)
    ensures var reply := Pull(env, st, req, node, now).reply; reply.Pulled? ==> Genuine(st.jobs, reply.jobs)
  {
    hide PullLoop, CheckSignature;
    PullShape(env, st, req, node, now);
    if Pull(env, st, req, node, now).reply.Pulled? {
      var st1 := Noted(st, req, now);
      LoopGenuine(st1, ListQueue(st1, node, PULL_MAX * 4), node, now, PULL_MAX);
    }
  }

  lemma HandGrows(s: Setting, orders: map<string, Order>, jobs: map<string, Job>, hand: set<Envelope>, found: seq<Envelope>)
    requires JobsFiled(s, orders, jobs) && HandFiled(s, orders, hand) && Genuine(jobs, found)
    ensures HandFiled(s, orders, hand + set e | e in found)
  {
    hide Carries, Answered;
  }

  lemma CollectFiled(s: Setting, w: World, req: Request, now: nat)
    requires Sound(s, w)
    ensures Sound(s, Next(s, w, Collect(now, req)))
  {
    hide Pull, KeysMatch, OrdersDrawn, HandFiled, Genuine, Rooted, IdemFiled;
    PullFiled(s, w, req, s.k.id, now);
    FiledSelf(s, w.orders, w.st.jobs);
    PulledGenuine(s.env, w.st, req, s.k.id, now);
    var out := Pull(s.env, w.st, req, s.k.id, now);
    if out.reply.Pulled? {
      HandGrows(s, w.orders, w.st.jobs, w.hand, out.reply.jobs);
    } else {
      assert w.hand + {} == w.hand;
    }
  }

  lemma FiledSelf(s: Setting, orders: map<string, Order>, jobs: map<string, Job>)
    requires JobsFiled(s, orders, jobs)
    ensures Self(jobs)
  {
    hide Carries, Answered;
  }

  // ---------------------------------------------------------------- submits

  lemma DuplicateNamesIdem(st: State, gate: Gate, nonce: string, checked: Checked<SubmitBody>, jobId: string, now: nat)
    ensures var reply := SubmitThrough(st, gate, nonce, checked, jobId, now).reply;
            reply.Submitted? && reply != Submitted(jobId, false) ==> exists p :: p in st.idem && st.idem[p] == reply.jobId
  {
    var reply := SubmitThrough(st, gate, nonce, checked, jobId, now).reply;
    if reply.Submitted? && reply != Submitted(jobId, false) {
      var p := (checked.value.toNode, checked.value.idempotencyKey.value);
      assert p in st.idem && st.idem[p] == reply.jobId;
    }
  }

  /** What an answered submit does to the client's keys. */
  lemma KeysAfterAsk(
      s: Setting, orders: map<string, Order>, heard: set<string>, keys: map<string, Pair>, drawn: set<string>,
      order: Order, draft: string, reply: Reply, created: bool, arrives: bool)
    requires KeysMatch(s, orders, heard, keys, drawn) && OrdersDrawn(s, orders, drawn)
    requires draft != "" && draft !in orders && order.pair.pub !in drawn && s.c.boxPair(order.pair.pub, order.pair.prv)
    requires created == (reply == Submitted(draft, false)) && (reply.Submitted? && !created ==> reply.jobId in orders)
    ensures var orders' := if created then orders[draft := order] else orders;
            var heard' := if created && arrives then heard + {draft} else heard;
            var keys' := if arrives then Kept(keys, reply, order.pair) else keys;
            OrdersDrawn(s, orders', drawn + {order.pair.pub}) && KeysMatch(s, orders', heard', keys', drawn + {order.pair.pub})
  {
  }

  lemma AskFiled(s: Setting, w: World, a: Act)
    requires Sound(s, w) && a.Ask? && Honest(s, w, a)
    ensures Sound(s, Next(s, w, a))
  {
    hide Carries, Answered, SubmitThrough, MemberGate, BodyOf, KeysMatch, OrdersDrawn, Paging.Table, Target;
    var node := Target(w.listed, s.k.id);
    if node.Some? {
      var ev := AskCall(s, a, node.value);
      var gate := MemberGate(s.env, a.req, a.now);
      var nonce := a.req.memberSig.nonce;
      SubmitShape(w.st, gate, nonce, ev.call.submit, a.draft, a.now);
      DuplicateNamesIdem(w.st, gate, nonce, ev.call.submit, a.draft, a.now);
      var out := SubmitThrough(w.st, gate, nonce, ev.call.submit, a.draft, a.now);
      var created := out.reply == Submitted(a.draft, false);
      KeysAfterAsk(s, w.orders, w.heard, w.keys, w.drawn, a.order, a.draft, out.reply, created, a.arrives);
      if created {
        JobAdded(s, w, out.state, a.order, a.draft, a.now);
      }
    }
  }

  lemma LookFiled(s: Setting, w: World, now: nat)
    requires Sound(s, w)
    ensures Sound(s, Next(s, w, Look(now)))
  {
    hide Target, Reported, JobsFiled, KeysMatch, OrdersDrawn, HandFiled, IdemFiled;
    ListingFilesKey(s, w.st.nodes, now);
  }

  lemma ListingFilesKey(s: Setting, nodes: map<string, Node>, now: nat)
    requires Rooted(s, nodes)
    ensures ListedRight(s, Reported(nodes, now))
  {
    var ids := Ordering.SortedText(nodes.Keys);
    FindInViews(nodes, ids[..Min(|ids|, 5000)], now, s.k.id);
  }

  /**
   * After an answered submit the key kept for its job is the job's own exactly when the answer is not
   * flagged as a duplicate, or the right key was kept before.
   */
  lemma KeyAfterSubmit(s: Setting, w: World, a: Act)
    requires Sound(s, w) && a.Ask? && Honest(s, w, a) && a.arrives && Target(w.listed, s.k.id).Some?
    requires Step(s.env, w.st, AskCall(s, a, Target(w.listed, s.k.id).value)).reply.Submitted?
    ensures var reply := Step(s.env, w.st, AskCall(s, a, Target(w.listed, s.k.id).value)).reply;
            var (id, end) := (reply.jobId, Next(s, w, a));
            && id in end.keys && id in end.orders
            && (end.keys[id].pub == end.orders[id].pair.pub <==>
                  !reply.duplicate || (id in w.keys && w.keys[id].pub == w.orders[id].pair.pub))
  {
    hide Carries, Answered, SubmitThrough, MemberGate, BodyOf, Paging.Table, Target;
    var ev := AskCall(s, a, Target(w.listed, s.k.id).value);
    var (gate, nonce) := (MemberGate(s.env, a.req, a.now), a.req.memberSig.nonce);
    SubmitShape(w.st, gate, nonce, ev.call.submit, a.draft, a.now);
    DuplicateNamesIdem(w.st, gate, nonce, ev.call.submit, a.draft, a.now);
  }

  lemma JobAdded(s: Setting, w: World, after: State, order: Order, draft: string, now: nat)
    requires JobsFiled(s, w.orders, w.st.jobs) && IdemFiled(w.orders, w.st.idem) && HandFiled(s, w.orders, w.hand)
    requires draft !in w.orders
    requires after.jobs == w.st.jobs[draft := NewJob(BodyOf(s.c, s.k.id, s.k.boxPub, order), draft, now)]
    requires forall p :: p in after.idem ==> (p in w.st.idem && after.idem[p] == w.st.idem[p]) || after.idem[p] == draft
    ensures JobsFiled(s, w.orders[draft := order], after.jobs) && IdemFiled(w.orders[draft := order], after.idem)
    ensures HandFiled(s, w.orders[draft := order], w.hand)
  {
    hide Answered, JobBlob;
  }

  // ---------------------------------------------------------------- results

  lemma AnswerFiled(s: Setting, w: World, a: Act)
    requires Laws(s.c) && Keyed(s.c, s.k) && Sound(s, w) && a.Answer? && Honest(s, w, a)
    ensures Sound(s, Next(s, w, a))
  {
    hide Carries, Answered, Result, Process, Laws, Keyed, KeysMatch, OrdersDrawn, Paging.Table;
    var e := a.e;
    NodeAnswers(s.c, s.k, s.engine, w.orders[e.jobId], e, a.work);
    var checked := AnswerCall(s, a).value.call.result;
    ResultShape(s.env, w.st, a.req, checked, a.now);
    var out := Result(s.env, w.st, a.req, checked, a.now);
    if out.reply == Accepted(false) {
      AnsweredHasReceipt(s, w.orders[e.jobId], e.jobId, Some(checked.value.blob), checked.value.receipt);
      JobAnswered(s, w.orders, w.st.jobs, e.jobId, checked.value, a.now);
    }
  }

  lemma AnsweredHasReceipt(s: Setting, o: Order, id: string, blob: Option<string>, receipt: Option<Json>)
    requires Answered(s.c, s.k, s.engine, o, id, blob, receipt)
    ensures receipt.Some?
  {
  }

  lemma JobAnswered(s: Setting, orders: map<string, Order>, jobs: map<string, Job>, id: string, body: ResultBody, now: nat)
    requires JobsFiled(s, orders, jobs) && id in jobs && body.receipt.Some?
    requires Answered(s.c, s.k, s.engine, orders[id], id, Some(body.blob), body.receipt)
    ensures JobsFiled(s, orders, jobs[id := Finished(jobs[id], body, now)])
  {
    hide Carries, Answered;
  }

  // ---------------------------------------------------------------- everything else

  /** Registrations and heartbeats keep node records under their own ids. */
  lemma NodeCallsKeepTable(env: Env, st: State, ev: Event)
    requires ev.Handle? && (ev.call.DoRegister? || ev.call.DoHeartbeat?) && Paging.Table(st.nodes)
    ensures Paging.Table(Step(env, st, ev).state.nodes)
  {
    hide CheckHeaders;
    match ev.call {
      case DoRegister(body) => RegisterShape(env, st, ev.req, body, ev.now);
      case DoHeartbeat(body) => HeartbeatShape(env, st, ev.req, body, ev.now);
    }
  }

  lemma NodeCallFiled(s: Setting, w: World, ev: Event)
    requires Sound(s, w) && Honest(s, w, Elsewhere(ev)) && ev.Handle? && (ev.call.DoRegister? || ev.call.DoHeartbeat?)
    ensures Sound(s, Next(s, w, Elsewhere(ev)))
  {
    hide Carries, Answered, Paging.Table, Step, KeysMatch, OrdersDrawn;
    NodeCallsKeepTable(s.env, w.st, ev);
    NodeCallsSpareJobs(s.env, w.st, ev);
    Authority.KeysMoveByOwner(s.env, w.st, ev, s.k.id);
    if ev.call.DoHeartbeat? { BeatKeepsKeys(s.env, w.st, ev, s.k.id); }
  }

  lemma BeatKeepsKeys(env: Env, st: State, ev: Event, node: string)
    requires ev.Handle? && ev.call.DoHeartbeat? && node in st.nodes
    ensures node in Step(env, st, ev).state.nodes
            && Authority.SameIdentity(Step(env, st, ev).state.nodes[node], st.nodes[node])
  {
    HeartbeatShape(env, st, ev.req, ev.call.beat, ev.now);
  }

  /** A result in another node's name is refused: all jobs are this node's. */
  lemma ForeignResultFiled(s: Setting, w: World, ev: Event)
    requires Sound(s, w) && ev.Handle? && ev.call.DoResult? && ev.req.nodeId != s.k.id
    ensures Sound(s, Next(s, w, Elsewhere(ev)))
  {
    hide Carries, Answered, Result, KeysMatch, OrdersDrawn, Paging.Table;
    ResultShape(s.env, w.st, ev.req, ev.call.result, ev.now);
  }

  lemma StoreEventFiled(s: Setting, w: World, ev: Event)
    requires Sound(s, w) && Honest(s, w, Elsewhere(ev)) && !ev.Handle?
    ensures Sound(s, Next(s, w, Elsewhere(ev)))
  {
    hide Filed, KeysMatch, OrdersDrawn, HandFiled, Delete, Put;
    match ev {
      case Resurface(_, slot, entry) => PutEntryShape(w.st, slot, entry);
      case Expire(_, key) => DeleteShape(w.st, key, s.k.id);
    }
  }

  lemma PutEntryShape(st: State, slot: Slot, entry: Option<string>)
    ensures Put(st, QueueKey(slot), EntryValue(entry)) == st.(index := st.index[slot := entry])
  {
  }

  lemma DeleteShape(st: State, key: Key, node: string)
    requires key != NodeKey(node)
    ensures var after := Delete(st, key);
            && (forall id :: id in after.jobs ==> id in st.jobs && after.jobs[id] == st.jobs[id])
            && (forall p :: p in after.idem ==> p in st.idem && after.idem[p] == st.idem[p])
            && (forall id :: id in after.nodes ==> id in st.nodes && after.nodes[id] == st.nodes[id])
            && (node in st.nodes ==> node in after.nodes)
  {
  }

  lemma NextSound(s: Setting, w: World, a: Act)
    requires Laws(s.c) && Keyed(s.c, s.k) && Sound(s, w) && Honest(s, w, a)
    ensures Sound(s, Next(s, w, a))
  {
    hide Sound, Next, Laws, Keyed;
    match a {
      case Look(now) => LookFiled(s, w, now);
      case Ask(_, _, _, _, _, _) => AskFiled(s, w, a);
      case Collect(now, req) => CollectFiled(s, w, req, now);
      case Answer(_, _, _, _, _) => AnswerFiled(s, w, a);
      case Elsewhere(ev) =>
        if !ev.Handle? {
          StoreEventFiled(s, w, ev);
        } else if ev.call.DoPull? {
          ForeignPullFiled(s, w, ev);
        } else if ev.call.DoResult? {
          ForeignResultFiled(s, w, ev);
        } else {
          NodeCallFiled(s, w, ev);
        }
    }
  }

  lemma ForeignPullFiled(s: Setting, w: World, ev: Event)
    requires Sound(s, w) && ev.Handle? && ev.call.DoPull?
    ensures Sound(s, Next(s, w, Elsewhere(ev)))
  {
    hide JobsFiled, KeysMatch, OrdersDrawn, Pull;
    PullFiled(s, w, ev.req, ev.call.nodeId, ev.now);
  }

  // ---------------------------------------------------------------- runs

  ghost function After(s: Setting, w: World, acts: seq<Act>): World
    decreases |acts|
  {
    if acts == [] then w else After(s, Next(s, w, acts[0]), acts[1..])
  }

  ghost predicate HonestActs(s: Setting, w: World, acts: seq<Act>)
    decreases |acts|
  {
    acts != [] ==> Honest(s, w, acts[0]) && HonestActs(s, Next(s, w, acts[0]), acts[1..])
  }

  lemma {:induction false} RunSound(s: Setting, w: World, acts: seq<Act>)
    requires Laws(s.c) && Keyed(s.c, s.k) && Sound(s, w) && HonestActs(s, w, acts)
    ensures Sound(s, After(s, w, acts))
    decreases |acts|
  {
    hide Sound, Next, Laws, Keyed, Honest;
    if acts != [] {
      NextSound(s, w, acts[0]);
      RunSound(s, Next(s, w, acts[0]), acts[1..]);
    }
  }

  /** The world before the first submit: the node is registered and no job has been created. */
  ghost predicate Start(s: Setting, w: World) {
    && Rooted(s, w.st.nodes) && w.st.jobs == map[] && w.st.idem == map[]
    && w.keys == map[] && w.listed == [] && w.hand == {} && w.orders == map[] && w.heard == {} && w.drawn == {}
  }

  /**
   * After any run, retries and lost answers included: the client's reply key for a stored job is the
   * job's own exactly when the answer that created the job reached the client.
   */
  lemma ReplyKeyMatches(s: Setting, w: World, acts: seq<Act>, id: string)
    requires Laws(s.c) && Keyed(s.c, s.k) && Start(s, w) && HonestActs(s, w, acts)
    ensures var end := After(s, w, acts);
            id in end.keys && id in end.st.jobs ==>
              (end.keys[id].pub == end.st.jobs[id].replyKey <==> id in end.heard)
  {
    RunSound(s, w, acts);
  }

  /**
   * The honest run, end to end: reading any done job gives the engine's output for the very prompt it
   * was created with, and a receipt that verifies exactly when the node listing shows the node; except
   * that a client that lost the creating answer and retried cannot open the result at all.
   */
  lemma HonestJobReadsBack(s: Setting, w: World, acts: seq<Act>, id: string, now: nat)
    requires Laws(s.c) && Keyed(s.c, s.k) && Start(s, w) && HonestActs(s, w, acts)
    requires var end := After(s, w, acts);
             id in end.keys && id in end.st.jobs && end.st.jobs[id].status.Done? && IsJobId(id)
    ensures var end := After(s, w, acts);
            var view := JobStatus(end.st, id);
            && id in end.orders && view.Some?
            && var r := Read(s.c, end.keys, id, view.value, Reported(end.st.nodes, now));
               if id in end.heard
               then r.Got? && r.text == Output(s.engine, end.orders[id]) && r.receipt.Some?
                    && end.st.jobs[id].result.Some?
                    && StatesWork(s.c, s.k, s.engine, end.orders[id], r.receipt.value, id, end.st.jobs[id].result.value)
                    && (r.verified <==> Visible(end.st.nodes, s.k.id))
               else r == CannotOpen
  {
    hide After, HonestActs, Read, Laws, Keyed, Visible, Reported, Answered, Carries, Output, StatesWork;
    RunSound(s, w, acts);
    var end := After(s, w, acts);
    var job := end.st.jobs[id];
    ListingVouches(end.st.nodes, now, s.k);
    if id in end.heard {
      ClientReads(s.c, s.k, s.engine, end.orders[id], end.keys, id, job.result, job.receipt, Reported(end.st.nodes, now));
    } else {
      WrongKeyReadsNothing(s.c, s.k, s.engine, end.orders[id], end.keys, id, job.result, job.receipt, Reported(end.st.nodes, now));
    }
  }

  /** Until then the client waits, gives up exactly on a failed job, and reads nothing without a reply key. */
  lemma UnfinishedReads(s: Setting, w: World, id: string, listed: seq<Paging.View>)
    requires IsJobId(id) && id in w.st.jobs && !w.st.jobs[id].status.Done?
    ensures var view := JobStatus(w.st, id);
            && view.Some?
            && var r := Read(s.c, w.keys, id, view.value, listed);
               && (r == GaveUp <==> id in w.keys && w.st.jobs[id].status.Failed?)
               && (r == Waiting <==> id in w.keys && !w.st.jobs[id].status.Failed?)
               && (r == NoKey <==> id !in w.keys)
  {
  }

  // ---------------------------------------------------------------- the lost answer

  /** The submit goes through: an open gate, a known and listed node, room in its queue, a new idempotency key. */
  predicate Accepts(s: Setting, w: World, a: Act) {
    && a.Ask? && a.refusal.None? && s.env.clubKey == "" && IsNodeId(s.k.id) && s.k.id in w.st.nodes
    && Target(w.listed, s.k.id).Some? && Target(w.listed, s.k.id).value.nodeId == s.k.id
    && a.order.idempotencyKey.Some? && IsIdempotencyKey(a.order.idempotencyKey.value)
    && (s.k.id, a.order.idempotencyKey.value) !in w.st.idem && |Queue(w.st, s.k.id)| < MAX_QUEUED_PER_NODE
  }

  /** A submit whose answer is lost, retried under its idempotency key, leaves the client with the wrong reply key. */
  lemma LostAnswerLosesTheKey(s: Setting, w: World, a: Act, b: Act)
    requires Accepts(s, w, a) && !a.arrives && a.draft != "" && a.draft !in w.keys
    requires b.Ask? && b.refusal.None? && b.arrives && b.order.idempotencyKey == a.order.idempotencyKey
    requires b.order.pair.pub != a.order.pair.pub
    ensures var end := Next(s, Next(s, w, a), b);
            && a.draft in end.st.jobs && end.st.jobs[a.draft].replyKey == a.order.pair.pub
            && a.draft in end.keys && end.keys[a.draft] == b.order.pair
  {
    hide MemberGate, JobBlob, Target;
    var node := Target(w.listed, s.k.id).value;
    var gate := MemberGate(s.env, a.req, a.now);
    OpenGate(s.env, a.req, a.now);
    OpenGate(s.env, b.req, b.now);
    var mid := Next(s, w, a);
    assert mid.st.idem[(s.k.id, a.order.idempotencyKey.value)] == a.draft;
    assert mid.keys == w.keys && a.draft in mid.st.jobs;
    assert Step(s.env, mid.st, AskCall(s, b, node)) == Outcome(mid.st, Submitted(a.draft, true));
  }

  lemma OpenGate(env: Env, req: Request, now: nat)
    requires env.clubKey == ""
    ensures MemberGate(env, req, now) == Open
  {
  }
}
