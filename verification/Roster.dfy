/** What the grid shows of a node: the last word of its own accepted registrations and heartbeats. */
module Roster {
  import opened Base
  import opened Keys
  import opened Store
  import opened Handlers
  import opened Shapes
  import opened Replay
  import opened Paging
  import Authority
  import Ordering
  import Stats

  // ---------------------------------------------------------------- facts and who states them

  /** Something the grid knows of a node. */
  datatype Fact =
    | HeardAt(t: nat)
    | Watts(w: real)
    | Measured(measured: bool)
    | BoxKey(pubkey: string)
    | SignKey(verifyKey: string)
    | Hood(name: string)
    | Since(t: nat)

  function Kind(f: Fact): nat {
    match f
    case HeardAt(_) => 0
    case Watts(_) => 1
    case Measured(_) => 2
    case BoxKey(_) => 3
    case SignKey(_) => 4
    case Hood(_) => 5
    case Since(_) => 6
  }

  /** An accepted registration states everything; when it registers an id first, also since when. */
  predicate Declares(body: RegisterBody, first: bool, now: nat, f: Fact) {
    match f
    case HeardAt(t) => t == now
    case Watts(w) => w == body.wattage
    case Measured(measured) => measured == body.measured
    case BoxKey(pubkey) => pubkey == body.pubkey
    case SignKey(verifyKey) => verifyKey == body.verifyKey
    case Hood(name) => name == body.neighborhood
    case Since(t) => first && t == now
  }

  /** An accepted heartbeat says the node was heard of now, and the readings it carries. */
  predicate Beats(body: Beat, now: nat, f: Fact) {
    match f
    case HeardAt(t) => t == now
    case Watts(w) => body.wattage == Some(Some(w))
    case Measured(measured) => body.measured == Some(Some(measured))
    case _ => false
  }

  /** In this store the event is an accepted registration or heartbeat of the node that states the fact. */
  ghost predicate Tells(env: Env, st: State, ev: Event, id: string, f: Fact) {
    ev.Handle? &&
    match ev.call
    case DoRegister(Fields(body)) =>
      body.nodeId == id && Step(env, st, ev).reply.Registered? && Declares(body, id !in st.nodes, ev.now, f)
    case DoHeartbeat(Fields(body)) =>
      body.nodeId == id && Step(env, st, ev).reply.Beaten? && Beats(body, ev.now, f)
    case _ => false
  }

  predicate Holds(rec: Node, f: Fact) {
    match f
    case HeardAt(t) => rec.lastSeen == t
    case Watts(w) => rec.wattage == w
    case Measured(measured) => rec.measured == measured
    case BoxKey(pubkey) => rec.pubkey == pubkey
    case SignKey(verifyKey) => rec.verifyKey == verifyKey
    case Hood(name) => rec.neighborhood == name
    case Since(t) => rec.registeredMs == t
  }

  predicate Known(nodes: map<string, Node>, id: string, f: Fact) {
    id in nodes && Holds(nodes[id], f)
  }

  lemma RegistrationRecords(env: Env, st: State, req: Request, body: RegisterBody, now: nat, id: string, f: Fact)
    requires Register(env, st, req, Fields(body), now).reply.Registered?
    ensures var after := Register(env, st, req, Fields(body), now).state.nodes;
            && (body.nodeId == id && Declares(body, id !in st.nodes, now, f) ==> Known(after, id, f))
            && (body.nodeId == id && f.Since? && Known(st.nodes, id, f) ==> Known(after, id, f))
            && (body.nodeId != id && Known(st.nodes, id, f) ==> Known(after, id, f))
  {
    hide CheckHeaders, IsKey32;
    RegisterShape(env, st, req, Fields(body), now);
  }

  lemma HeartbeatRecords(env: Env, st: State, req: Request, body: Beat, now: nat, id: string, f: Fact)
    requires Heartbeat(env, st, req, Fields(body), now).reply.Beaten?
    ensures var after := Heartbeat(env, st, req, Fields(body), now).state.nodes;
            && body.nodeId in st.nodes
            && (body.nodeId == id && Beats(body, now, f) ==> Known(after, id, f))
            && (Known(st.nodes, id, f) && (body.nodeId == id ==> forall g :: Kind(g) == Kind(f) ==> !Beats(body, now, g)) ==>
                  Known(after, id, f))
  {
    hide CheckHeaders;
    HeartbeatShape(env, st, req, Fields(body), now);
    assert Beats(body, now, HeardAt(now));
    if body.wattage.Some? && body.wattage.value.Some? { assert Beats(body, now, Watts(body.wattage.value.value)); }
    if body.measured.Some? && body.measured.value.Some? { assert Beats(body, now, Measured(body.measured.value.value)); }
  }

  /** What an accepted event states is what the store then holds. */
  lemma ToldIsKnown(env: Env, st: State, ev: Event, id: string, f: Fact)
    requires Tells(env, st, ev, id, f)
    ensures Known(Step(env, st, ev).state.nodes, id, f)
  {
    hide Register, Heartbeat, Declares, Beats;
    match ev.call {
      case DoRegister(Fields(body)) => RegistrationRecords(env, st, ev.req, body, ev.now, id, f);
      case DoHeartbeat(Fields(body)) => HeartbeatRecords(env, st, ev.req, body, ev.now, id, f);
    }
  }

  /** The event says nothing about this kind of fact and does not expire the node. */
  ghost predicate Silent(env: Env, st: State, ev: Event, id: string, kind: nat) {
    && !(ev.Expire? && ev.key == NodeKey(id))
    && forall g :: Kind(g) == kind ==> !Tells(env, st, ev, id, g)
  }

  lemma SilentRegistration(env: Env, st: State, ev: Event, id: string, f: Fact)
    requires ev.Handle? && ev.call.DoRegister? && Known(st.nodes, id, f) && Silent(env, st, ev, id, Kind(f))
    ensures Known(Step(env, st, ev).state.nodes, id, f)
  {
    hide Register;
    RegisterShape(env, st, ev.req, ev.call.register, ev.now);
    if Register(env, st, ev.req, ev.call.register, ev.now).reply.Registered? {
      var body := ev.call.register.value;
      RegistrationRecords(env, st, ev.req, body, ev.now, id, f);
      if body.nodeId == id && !f.Since? { RegistrationTellsAll(env, st, ev, id, f); }
    }
  }

  /** An accepted registration states a fact of every kind but the last. */
  lemma RegistrationTellsAll(env: Env, st: State, ev: Event, id: string, f: Fact)
    requires ev.Handle? && ev.call.DoRegister? && ev.call.register.Fields? && ev.call.register.value.nodeId == id
    requires Step(env, st, ev).reply.Registered? && !f.Since?
    ensures exists g :: Kind(g) == Kind(f) && Tells(env, st, ev, id, g)
  {
    hide Register;
    var body := ev.call.register.value;
    var g := match f
      case HeardAt(_) => HeardAt(ev.now)
      case Watts(_) => Watts(body.wattage)
      case Measured(_) => Measured(body.measured)
      case BoxKey(_) => BoxKey(body.pubkey)
      case SignKey(_) => SignKey(body.verifyKey)
      case Hood(_) => Hood(body.neighborhood)
      case Since(_) => f;
    assert Tells(env, st, ev, id, g);
  }

  lemma SilentHeartbeat(env: Env, st: State, ev: Event, id: string, f: Fact)
    requires ev.Handle? && ev.call.DoHeartbeat? && Known(st.nodes, id, f) && Silent(env, st, ev, id, Kind(f))
    ensures Known(Step(env, st, ev).state.nodes, id, f)
  {
    hide Heartbeat, Beats, Holds;
    HeartbeatShape(env, st, ev.req, ev.call.beat, ev.now);
    if Heartbeat(env, st, ev.req, ev.call.beat, ev.now).reply.Beaten? {
      var body := ev.call.beat.value;
      forall g | body.nodeId == id && Kind(g) == Kind(f) ensures !Beats(body, ev.now, g) {
        assert !Tells(env, st, ev, id, g);
      }
      HeartbeatRecords(env, st, ev.req, body, ev.now, id, f);
    }
  }

  /** Whatever else happens leaves the fact as it is. */
  lemma SilenceKeeps(env: Env, st: State, ev: Event, id: string, f: Fact)
    requires Known(st.nodes, id, f) && Silent(env, st, ev, id, Kind(f))
    ensures Known(Step(env, st, ev).state.nodes, id, f)
  {
    hide Register, Heartbeat, Holds, Tells;
    if ev.Handle? {
      match ev.call {
        case DoRegister(_) => SilentRegistration(env, st, ev, id, f);
        case DoHeartbeat(_) => SilentHeartbeat(env, st, ev, id, f);
        case _ => Authority.JobCallsSpareNodes(env, st, ev);
      }
    } else {
      Authority.StoreEventsSpareNode(env, st, ev, id);
    }
  }

  // ---------------------------------------------------------------- the last word of a run

  ghost predicate SilentRun(env: Env, st: State, events: seq<Event>, id: string, kind: nat)
    decreases |events|
  {
    events != [] ==> Silent(env, st, events[0], id, kind) && SilentRun(env, Step(env, st, events[0]).state, events[1..], id, kind)
  }

  lemma {:induction false} KnownStays(env: Env, st: State, events: seq<Event>, id: string, f: Fact)
    requires Known(st.nodes, id, f) && SilentRun(env, st, events, id, Kind(f))
    ensures Known(Run(env, st, events).nodes, id, f)
    decreases |events|
  {
    hide Step, Silent, Known;
    if events != [] {
      SilenceKeeps(env, st, events[0], id, f);
      KnownStays(env, Step(env, st, events[0]).state, events[1..], id, f);
    }
  }

  /** The k-th event of the run states the fact, and no later one states another of its kind or expires the node. */
  ghost predicate LastWord(env: Env, st: State, events: seq<Event>, k: nat, id: string, f: Fact) {
    && k < |events| && Tells(env, At(env, st, events, k), events[k], id, f)
    && forall j :: k < j < |events| ==> Silent(env, At(env, st, events, j), events[j], id, Kind(f))
  }

  lemma {:induction false} SilentFrom(env: Env, st: State, events: seq<Event>, k: nat, id: string, kind: nat)
    requires k <= |events| && forall j :: k <= j < |events| ==> Silent(env, At(env, st, events, j), events[j], id, kind)
    ensures SilentRun(env, At(env, st, events, k), events[k..], id, kind)
    decreases |events| - k
  {
    hide Step, Silent;
    if k < |events| {
      SilentFrom(env, st, events, k + 1, id, kind);
      AtNext(env, st, events, k);
      assert events[k..][0] == events[k] && events[k..][1..] == events[k + 1..];
    }
  }

  lemma AtNext(env: Env, st: State, events: seq<Event>, k: nat)
    requires k < |events|
    ensures At(env, st, events, k + 1) == Step(env, At(env, st, events, k), events[k]).state
  {
    hide Step;
    assert events[..k + 1] == events[..k] + [events[k]];
    RunAppend(env, st, events[..k], [events[k]]);
    assert [events[k]][1..] == [];
    var here := At(env, st, events, k);
    assert Run(env, Step(env, here, events[k]).state, []) == Step(env, here, events[k]).state;
  }

  /** After any run the store holds the last word on each fact of each node. */
  lemma LastWordIsKnown(env: Env, st: State, events: seq<Event>, k: nat, id: string, f: Fact)
    requires LastWord(env, st, events, k, id, f)
    ensures Known(Run(env, st, events).nodes, id, f)
  {
    hide Step, Silent, Tells, Known, Run;
    ToldIsKnown(env, At(env, st, events, k), events[k], id, f);
    AtNext(env, st, events, k);
    SilentFrom(env, st, events, k + 1, id, Kind(f));
    KnownStays(env, At(env, st, events, k + 1), events[k + 1..], id, f);
    RunAppend(env, st, events[..k + 1], events[k + 1..]);
    assert events == events[..k + 1] + events[k + 1..];
  }

  // ---------------------------------------------------------------- what readers see

  /** A listed node shows the fact: being heard of shows as alive for 90 seconds, to the millisecond. */
  predicate Says(v: View, f: Fact, now: nat) {
    match f
    case HeardAt(t) => v.lastSeen == t && (v.alive <==> now - t <= 90_000)
    case Watts(w) => v.wattage == w
    case Measured(measured) => v.measured == measured
    case BoxKey(pubkey) => v.pubkey == pubkey
    case SignKey(verifyKey) => v.verifyKey == verifyKey
    case Hood(name) => v.neighborhood == if name == "" then "undisclosed" else name
    case Since(_) => true
  }

  /** The listing has the node, and every line it has for it shows the fact. */
  ghost predicate Shows(listed: seq<View>, id: string, f: Fact, now: nat) {
    && (exists i :: 0 <= i < |listed| && listed[i].nodeId == id)
    && forall i :: 0 <= i < |listed| && listed[i].nodeId == id ==> Says(listed[i], f, now)
  }

  /** The first nodes by id that `n` pages' worth of listing covers. */
  function Covered(nodes: map<string, Node>, n: nat): (ids: seq<string>)
    ensures forall i :: 0 <= i < |ids| ==> ids[i] in nodes
  {
    var ids := Ordering.SortedText(nodes.Keys);
    ids[..Min(|ids|, n)]
  }

  lemma KnownIsShown(nodes: map<string, Node>, ids: seq<string>, now: nat, id: string, f: Fact)
    requires Table(nodes) && Known(nodes, id, f) && (forall i :: 0 <= i < |ids| ==> ids[i] in nodes) && id in ids
    ensures Shows(Views(nodes, ids, now), id, f, now)
  {
    var listed := Views(nodes, ids, now);
    var i :| 0 <= i < |ids| && ids[i] == id;
    assert listed[i].nodeId == id;
  }

  lemma TableStep(env: Env, st: State, ev: Event)
    requires Table(st.nodes)
    ensures Table(Step(env, st, ev).state.nodes)
  {
    hide Register, Heartbeat, Table;
    if ev.Handle? {
      match ev.call {
        case DoRegister(body) => TableRegister(env, st, ev.req, body, ev.now);
        case DoHeartbeat(body) => TableHeartbeat(env, st, ev.req, body, ev.now);
        case _ => Authority.JobCallsSpareNodes(env, st, ev);
      }
    } else {
      TableStore(env, st, ev);
    }
  }

  lemma TableStore(env: Env, st: State, ev: Event)
    requires Table(st.nodes) && !ev.Handle?
    ensures Table(Step(env, st, ev).state.nodes)
  {
    hide IsNodeId;
  }

  lemma TableRegister(env: Env, st: State, req: Request, body: Checked<RegisterBody>, now: nat)
    requires Table(st.nodes)
    ensures Table(Register(env, st, req, body, now).state.nodes)
  {
    hide CheckSignature, IsNodeId, IsKey32;
    RegisterShape(env, st, req, body, now);
  }

  lemma TableHeartbeat(env: Env, st: State, req: Request, body: Checked<Beat>, now: nat)
    requires Table(st.nodes)
    ensures Table(Heartbeat(env, st, req, body, now).state.nodes)
  {
    hide CheckSignature, IsNodeId;
    HeartbeatShape(env, st, req, body, now);
  }

  lemma {:induction false} TableRun(env: Env, st: State, events: seq<Event>)
    requires Table(st.nodes)
    ensures Table(Run(env, st, events).nodes)
    decreases |events|
  {
    hide Step, Table;
    if events != [] {
      TableStep(env, st, events[0]);
      TableRun(env, Step(env, st, events[0]).state, events[1..]);
    }
  }

  /**
   * From an empty store and over any run: as long as a listing reaches a node, it shows the last word of the
   * node's own accepted registrations and heartbeats on each fact, keys, readings and liveness alike.
   */
  lemma ListingShowsLastWord(env: Env, events: seq<Event>, k: nat, id: string, f: Fact, n: nat, now: nat)
    requires LastWord(env, EMPTY, events, k, id, f)
    requires id in Covered(Run(env, EMPTY, events).nodes, n)
    ensures var nodes := Run(env, EMPTY, events).nodes; Shows(Views(nodes, Covered(nodes, n), now), id, f, now)
  {
    hide Run, LastWord, Known, Table;
    assert Table(EMPTY.nodes) by { NoNodes(); }
    TableRun(env, EMPTY, events);
    LastWordIsKnown(env, EMPTY, events, k, id, f);
    var nodes := Run(env, EMPTY, events).nodes;
    KnownIsShown(nodes, Covered(nodes, n), now, id, f);
  }

  lemma NoNodes()
    ensures Table(EMPTY.nodes)
  {
  }

  /** The statistics count a node as alive until exactly 90 seconds after its last accepted registration or heartbeat. */
  lemma StatsCountLastHeard(env: Env, st: State, events: seq<Event>, k: nat, id: string, t: nat, now: nat)
    requires LastWord(env, st, events, k, id, HeardAt(t))
    ensures id in Stats.AliveIds(Run(env, st, events).nodes, now) <==> now - t <= 90_000
  {
    hide Run, LastWord;
    LastWordIsKnown(env, st, events, k, id, HeardAt(t));
  }

  /** A node's registration time is that of its first registration, however often it registers again. */
  lemma SinceFirstRegistration(env: Env, st: State, events: seq<Event>, k: nat, id: string, t: nat)
    requires LastWord(env, st, events, k, id, Since(t))
    ensures var nodes := Run(env, st, events).nodes; id in nodes && nodes[id].registeredMs == t
  {
    hide Run, LastWord;
    LastWordIsKnown(env, st, events, k, id, Since(t));
  }
}
