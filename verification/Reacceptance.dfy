/** When one signed request is accepted twice: the exact condition, on the node path and the member path, in whole runs. */
module Reacceptance {
  import opened Base
  import opened Keys
  import opened Store
  import opened Handlers
  import opened Shapes
  import opened Replay
  import Authority
  import Decimal

  // ---------------------------------------------------------------- what acceptance is

  /** The key a handler checks the node signature under, when it gets that far. */
  function KeyAsked(env: Env, st: State, ev: Event): Option<string>
    requires ev.Handle?
  {
    match ev.call
    case DoRegister(Fields(body)) =>
      if !IsNodeId(body.nodeId) || ev.req.nodeId != body.nodeId || !IsKey32(env, body.pubkey) || !IsKey32(env, body.verifyKey)
      then None
      else Some(if body.nodeId in st.nodes then st.nodes[body.nodeId].verifyKey else body.verifyKey)
    case DoHeartbeat(Fields(body)) =>
      if IsNodeId(body.nodeId) && ev.req.nodeId == body.nodeId then KeyOf(st, body.nodeId) else None
    case DoPull(node) => if IsNodeId(node) && ev.req.nodeId == node then KeyOf(st, node) else None
    case DoResult(Fields(body)) =>
      if IsJobId(body.jobId) && IsNodeId(ev.req.nodeId) then KeyOf(st, ev.req.nodeId) else None
    case _ => None
  }

  function KeyOf(st: State, node: string): Option<string> {
    if node in st.nodes then Some(st.nodes[node].verifyKey) else None
  }

  /** The node signature check passes under the key the handler asks for. */
  ghost predicate Passes(env: Env, st: State, ev: Event)
    requires ev.Handle?
  {
    var key := KeyAsked(env, st, ev);
    && key.Some? && CheckHeaders(env, ev.req, ev.req.sig, key.value, ev.now) == Genuine
    && (ev.req.nodeId, ev.req.sig.nonce) !in st.nonces
  }

  lemma RegisterSpends(env: Env, st: State, ev: Event)
    requires ev.Handle? && ev.call.DoRegister?
    ensures Passes(env, st, ev) <==> Step(env, st, ev).state.nonces != st.nonces
  {
    hide CheckHeaders, IsKey32;
    RegisterShape(env, st, ev.req, ev.call.register, ev.now);
  }

  lemma BeatSpends(env: Env, st: State, ev: Event)
    requires ev.Handle? && ev.call.DoHeartbeat?
    ensures Passes(env, st, ev) <==> Step(env, st, ev).state.nonces != st.nonces
  {
    hide CheckHeaders;
    if ev.call.beat.Fields? && ev.req.nodeId in st.nodes {
      SignatureShape(env, st, ev.req, st.nodes[ev.req.nodeId].verifyKey, ev.now);
    }
  }

  lemma PullSpends(env: Env, st: State, ev: Event)
    requires ev.Handle? && ev.call.DoPull?
    ensures Passes(env, st, ev) <==> Step(env, st, ev).state.nonces != st.nonces
  {
    hide CheckHeaders, PullLoop;
    var node := ev.call.nodeId;
    PullShape(env, st, ev.req, node, ev.now);
    if node in st.nodes { SignatureShape(env, st, ev.req, st.nodes[node].verifyKey, ev.now); }
    if Pull(env, st, ev.req, node, ev.now).reply.Pulled? {
      var st1 := Noted(st, ev.req, ev.now);
      LoopFrame(st1, ListQueue(st1, node, PULL_MAX * 4), node, ev.now, PULL_MAX);
    }
  }

  lemma ResultSpends(env: Env, st: State, ev: Event)
    requires ev.Handle? && ev.call.DoResult?
    ensures Passes(env, st, ev) <==> Step(env, st, ev).state.nonces != st.nonces
  {
    hide CheckHeaders;
    if ev.req.nodeId in st.nodes { SignatureShape(env, st, ev.req, st.nodes[ev.req.nodeId].verifyKey, ev.now); }
  }

  /** A node credential is accepted exactly when its request presents it and the signature check passes. */
  lemma NodeAcceptedExactly(env: Env, st: State, ev: Event, c: Credential)
    requires c.NodeCredential? && ev.Handle?
    ensures Accepts(env, st, ev, c) <==> Presents(env, ev, c) && Passes(env, st, ev)
  {
    hide Step, CheckHeaders, KeyAsked;
    if Presents(env, ev, c) {
      NodeNonces(env, st, ev, c.signer, c.nonce);
      match ev.call {
        case DoRegister(_) => RegisterSpends(env, st, ev);
        case DoHeartbeat(_) => BeatSpends(env, st, ev);
        case DoPull(_) => PullSpends(env, st, ev);
        case DoResult(_) => ResultSpends(env, st, ev);
      }
      SpendsItsOwn(env, st, ev);
    }
  }

  /** A request adds its own nonce to the table or none. */
  lemma SpendsItsOwn(env: Env, st: State, ev: Event)
    requires ev.Handle? && !ev.call.DoSubmit?
    ensures var after := Step(env, st, ev).state.nonces;
            after != st.nonces ==> (ev.req.nodeId, ev.req.sig.nonce) in after && (ev.req.nodeId, ev.req.sig.nonce) !in st.nonces
  {
    hide CheckHeaders;
    match ev.call {
      case DoRegister(body) => NoncesOfRegister(env, st, ev.req, body, ev.now);
      case DoHeartbeat(body) => NoncesOfHeartbeat(env, st, ev.req, body, ev.now);
      case DoPull(node) => NoncesOfPull(env, st, ev.req, node, ev.now);
      case DoResult(body) => NoncesOfResult(env, st, ev.req, body, ev.now);
    }
  }

  /** A member credential is accepted exactly when its submit gets to the gate and the pair is unspent. */
  lemma MemberAcceptedExactly(env: Env, st: State, ev: Event, c: Credential)
    requires c.MemberCredential? && ev.Handle?
    ensures Accepts(env, st, ev, c) <==> Presents(env, ev, c) && !ev.call.oversize && (c.member, c.nonce) !in st.memberNonces
  {
    hide MemberGate;
    if Presents(env, ev, c) && !ev.call.oversize {
      GateSpends(st, c.member, c.nonce, ev.call.submit, ev.call.jobId, ev.now);
    }
  }

  lemma GateSpends(st: State, member: string, nonce: string, checked: Checked<SubmitBody>, jobId: string, now: nat)
    ensures (member, nonce) in SubmitThrough(st, ByMember(member), nonce, checked, jobId, now).state.memberNonces
  {
    var st1 := Gated(st, ByMember(member), nonce, now);
    AdmitShape(st1, checked, jobId, now);
    if checked.Fields? { EnqueueShape(st1, checked.value, jobId, now); }
  }

  // ---------------------------------------------------------------- the same request later

  /** The same request, handled at another time. */
  function Resent(ev: Event, now: nat): Event
    requires ev.Handle?
  {
    Handle(now, ev.req, ev.call)
  }

  /** A genuine signature is genuine at another time exactly within its window. */
  lemma HeadersLater(env: Env, req: Request, h: SigHeaders, key: string, first: nat, second: nat)
    requires CheckHeaders(env, req, h, key, first) == Genuine
    ensures Decimal.AllDigits(h.timestamp)
    ensures CheckHeaders(env, req, h, key, second) == Genuine <==> Abs(second / 1000 - Decimal.Read(h.timestamp)) <= MAX_SKEW_S
  {
  }

  lemma GateLater(env: Env, req: Request, member: string, first: nat, second: nat)
    requires MemberGate(env, req, first) == ByMember(member)
    ensures Decimal.AllDigits(req.memberSig.timestamp)
    ensures MemberGate(env, req, second) == ByMember(member) <==>
              Abs(second / 1000 - Decimal.Read(req.memberSig.timestamp)) <= MAX_SKEW_S
  {
    hide VerifyCard, CheckHeaders, B64ToBytes;
    HeadersLater(env, req, req.memberSig, member, first, second);
  }

  /** The event is not a registration that moves a known node to another verify key. */
  predicate KeepsKey(st: State, ev: Event) {
    ev.Handle? && ev.call.DoRegister? && ev.call.register.Fields? && ev.call.register.value.nodeId in st.nodes ==>
      st.nodes[ev.call.register.value.nodeId].verifyKey == ev.call.register.value.verifyKey
  }

  /** After the first acceptance the handler asks for the same key again. */
  lemma SameKeyAsked(env: Env, st: State, ev: Event, later: State, second: nat)
    requires ev.Handle? && Passes(env, st, ev) && KeepsKey(st, ev) && later.nodes == Step(env, st, ev).state.nodes
    ensures KeyAsked(env, later, Resent(ev, second)) == KeyAsked(env, st, ev)
  {
    hide CheckHeaders, IsKey32;
    if ev.call.DoRegister? {
      RegisterShape(env, st, ev.req, ev.call.register, ev.now);
    } else {
      hide Step;
      Authority.KeysMoveByOwner(env, st, ev, ev.req.nodeId);
    }
  }

  lemma AgainAtNode(env: Env, st: State, ev: Event, c: Credential, later: State, second: nat)
    requires ev.Handle? && c.NodeCredential? && Accepts(env, st, ev, c) && KeepsKey(st, ev)
    requires later.nodes == Step(env, st, ev).state.nodes
    ensures Decimal.AllDigits(c.timestamp)
    ensures Accepts(env, later, Resent(ev, second), c) <==>
              Lookup(later, RecordKey(c)).None? && Abs(second / 1000 - Decimal.Read(c.timestamp)) <= MAX_SKEW_S
  {
    hide Step, CheckHeaders, KeyAsked;
    var again := Resent(ev, second);
    NodeAcceptedExactly(env, st, ev, c);
    NodeAcceptedExactly(env, later, again, c);
    SameKeyAsked(env, st, ev, later, second);
    HeadersLater(env, ev.req, ev.req.sig, KeyAsked(env, st, ev).value, ev.now, second);
  }

  lemma AgainAtGate(env: Env, st: State, ev: Event, c: Credential, later: State, second: nat)
    requires ev.Handle? && c.MemberCredential? && Accepts(env, st, ev, c)
    ensures Decimal.AllDigits(c.timestamp)
    ensures Accepts(env, later, Resent(ev, second), c) <==>
              Lookup(later, RecordKey(c)).None? && Abs(second / 1000 - Decimal.Read(c.timestamp)) <= MAX_SKEW_S
  {
    hide Step, MemberGate;
    MemberAcceptedExactly(env, st, ev, c);
    MemberAcceptedExactly(env, later, Resent(ev, second), c);
    GateLater(env, ev.req, c.member, ev.now, second);
  }

  /** On either path the accepted request is accepted again exactly when its nonce is gone and it is in its window. */
  lemma AgainExactly(env: Env, st: State, ev: Event, c: Credential, later: State, second: nat)
    requires ev.Handle? && Accepts(env, st, ev, c) && KeepsKey(st, ev) && later.nodes == Step(env, st, ev).state.nodes
    ensures Decimal.AllDigits(c.timestamp)
    ensures Accepts(env, later, Resent(ev, second), c) <==>
              Lookup(later, RecordKey(c)).None? && Abs(second / 1000 - Decimal.Read(c.timestamp)) <= MAX_SKEW_S
  {
    hide Accepts, Step;
    if c.NodeCredential? { AgainAtNode(env, st, ev, c, later, second); } else { AgainAtGate(env, st, ev, c, later, second); }
  }

  // ---------------------------------------------------------------- the exact condition

  /** First accepted 300 seconds early, asked again 300 seconds late, and a whole time to live apart. */
  predicate TightPair(timestamp: string, first: nat, second: nat) {
    && Decimal.AllDigits(timestamp)
    && first / 1000 + 300 == Decimal.Read(timestamp)
    && second / 1000 == Decimal.Read(timestamp) + 300
    && second - first >= 600_000
  }

  lemma TightExactly(t: nat, first: nat, second: nat)
    requires Abs(first / 1000 - t) <= MAX_SKEW_S
    ensures Abs(second / 1000 - t) <= MAX_SKEW_S && second >= first + NONCE_TTL_S * 1000
            <==> first / 1000 + MAX_SKEW_S == t && second / 1000 == t + MAX_SKEW_S && second - first >= NONCE_TTL_S * 1000
  {
  }

  /** The member twin of `ReplayedExactlyWhen`, and its form for any call: nonces living their exact time, nothing else in between. */
  lemma AcceptedAgainExactlyWhen(env: Env, st: State, ev: Event, c: Credential, second: nat)
    requires ev.Handle? && Accepts(env, st, ev, c) && KeepsKey(st, ev) && ev.now <= second
    ensures var later := Aged(Step(env, st, ev).state, RecordKey(c), second);
            Accepts(env, later, Resent(ev, second), c) <==> TightPair(c.timestamp, ev.now, second)
  {
    hide Accepts, Step;
    var noted := Step(env, st, ev).state;
    var later := Aged(noted, RecordKey(c), second);
    AcceptedInWindow(env, st, ev, c);
    AgedKeepsNodes(noted, c, second);
    AgainExactly(env, st, ev, c, later, second);
    TightExactly(Decimal.Read(c.timestamp), ev.now, second);
    DeletedIsGone(noted, c);
  }

  lemma AgedKeepsNodes(st: State, c: Credential, now: nat)
    ensures Aged(st, RecordKey(c), now).nodes == st.nodes
  {
  }

  lemma DeletedIsGone(st: State, c: Credential)
    ensures Lookup(Delete(st, RecordKey(c)), RecordKey(c)).None? && Delete(st, RecordKey(c)).nodes == st.nodes
  {
  }

  /** The run starts with the event, which is accepted, and its j-th event is the same request, accepted again. */
  ghost predicate Reaccepts(env: Env, st: State, events: seq<Event>, ev: Event, c: Credential, j: nat, second: nat)
    requires ev.Handle?
  {
    && Timely(env, st, events, ExactTtl, 0) && 0 < j < |events|
    && events[0] == ev && events[j] == Resent(ev, second)
    && AcceptedAt(env, st, events, 0, c) && AcceptedAt(env, st, events, j, c)
  }

  lemma BuildRun(env: Env, st: State, ev: Event, c: Credential, second: nat)
    requires ev.Handle? && Accepts(env, st, ev, c) && KeepsKey(st, ev) && TightPair(c.timestamp, ev.now, second)
    ensures Reaccepts(env, st, [ev, Expire(second, RecordKey(c)), Resent(ev, second)], ev, c, 2, second)
  {
    hide Accepts, MemberGate;
    var (gone, again) := (Expire(second, RecordKey(c)), Resent(ev, second));
    var events := [ev, gone, again];
    var noted := Step(env, st, ev).state;
    var later := Delete(noted, RecordKey(c));
    AcceptedInWindow(env, st, ev, c);
    DeletedIsGone(noted, c);
    AgainExactly(env, st, ev, c, later, second);
    RunOfTwo(env, st, ev, gone, again);
    TimelyRun(env, st, ev, c, second);
  }

  lemma RunOfTwo(env: Env, st: State, a: Event, b: Event, d: Event)
    ensures At(env, st, [a, b, d], 0) == st
    ensures At(env, st, [a, b, d], 2) == Step(env, Step(env, st, a).state, b).state
  {
    hide Step;
    var events := [a, b, d];
    assert events[..0] == [] && events[..2] == [a, b];
    assert [a, b][1..] == [b] && [b][1..] == [];
    var mid := Step(env, st, a).state;
    assert Run(env, Step(env, mid, b).state, []) == Step(env, mid, b).state;
    assert Run(env, mid, [b]) == Step(env, mid, b).state;
  }

  lemma TimelyRun(env: Env, st: State, ev: Event, c: Credential, second: nat)
    requires ev.Handle? && ev.now <= second && second - ev.now >= NONCE_TTL_S * 1000
    requires Lookup(Step(env, st, ev).state, RecordKey(c)) == Some(NonceValue(NonceRecord(ev.now)))
    ensures Timely(env, st, [ev, Expire(second, RecordKey(c)), Resent(ev, second)], ExactTtl, 0)
  {
    hide Step;
    var events := [ev, Expire(second, RecordKey(c)), Resent(ev, second)];
    var noted := Step(env, st, ev).state;
    var later := Step(env, noted, events[1]).state;
    assert events[1..] == [events[1], events[2]] && events[1..][1..] == [events[2]] && events[1..][1..][1..] == [];
    assert Timely(env, Step(env, later, events[2]).state, [], ExactTtl, second);
    assert Timely(env, later, [events[2]], ExactTtl, second);
    assert Timely(env, noted, events[1..], ExactTtl, ev.now);
  }

  /**
   * Exactly when one accepted request, node or member, is accepted a second time in some run where the
   * clock never goes back and nonce records live their exact time.
   */
  lemma ReacceptedExactlyWhen(env: Env, st: State, ev: Event, c: Credential, second: nat)
    requires ev.Handle? && Accepts(env, st, ev, c) && KeepsKey(st, ev)
    ensures (exists events: seq<Event>, j: nat :: Reaccepts(env, st, events, ev, c, j, second))
            <==> TightPair(c.timestamp, ev.now, second)
  {
    hide Accepts, Step, Timely, Run;
    if TightPair(c.timestamp, ev.now, second) {
      BuildRun(env, st, ev, c, second);
    }
    if events: seq<Event>, j: nat :| Reaccepts(env, st, events, ev, c, j, second) {
      TwoAcceptances(env, st, events, ExactTtl, c, 0, j);
      TightExactly(Decimal.Read(c.timestamp), ev.now, second);
    }
  }
}
