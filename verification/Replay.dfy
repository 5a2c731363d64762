/** How often one signed request can be accepted, given when its nonce record may disappear. */
module Replay {
  import opened Base
  import opened Keys
  import opened Store
  import opened Handlers
  import opened Shapes
  import Decimal

  // ---------------------------------------------------------------- credentials

  /** Who signed, the signed timestamp and the signed nonce. */
  datatype Credential =
    | NodeCredential(signer: string, timestamp: string, nonce: string)
    | MemberCredential(member: string, timestamp: string, nonce: string)

  /** The record that marks a credential's nonce as used. */
  function RecordKey(c: Credential): Key {
    match c
    case NodeCredential(signer, _, nonce) => NonceKey(signer, nonce)
    case MemberCredential(member, _, nonce) => MemberNonceKey(member, nonce)
  }

  /** The event presents this credential. */
  ghost predicate Presents(env: Env, ev: Event, c: Credential) {
    ev.Handle? &&
    match c
    case NodeCredential(signer, timestamp, nonce) =>
      !ev.call.DoSubmit? && ev.req.nodeId == signer && ev.req.sig.timestamp == timestamp && ev.req.sig.nonce == nonce
    case MemberCredential(member, timestamp, nonce) =>
      ev.call.DoSubmit? && MemberGate(env, ev.req, ev.now) == ByMember(member)
      && ev.req.memberSig.timestamp == timestamp && ev.req.memberSig.nonce == nonce
  }

  /** The event presents the credential and the coordinator spends its nonce on it. */
  ghost predicate Accepts(env: Env, st: State, ev: Event, c: Credential) {
    && Presents(env, ev, c)
    && Lookup(st, RecordKey(c)).None? && Lookup(Step(env, st, ev).state, RecordKey(c)).Some?
  }

  /** A nonce record changes only by being written for a genuine signature in this very step. */
  predicate Kept(before: Option<Value>, after: Option<Value>, now: nat) {
    after == before || (before.None? && after == Some(NonceValue(NonceRecord(now))))
  }

  lemma NodeNonces(env: Env, st: State, ev: Event, signer: string, nonce: string)
    requires ev.Handle?
    ensures var next := Step(env, st, ev).state;
            && Kept(Lookup(st, NonceKey(signer, nonce)), Lookup(next, NonceKey(signer, nonce)), ev.now)
            && ((signer, nonce) in next.nonces && (signer, nonce) !in st.nonces ==>
                  !ev.call.DoSubmit? && ev.req.nodeId == signer && ev.req.sig.nonce == nonce
                  && exists key :: CheckHeaders(env, ev.req, ev.req.sig, key, ev.now) == Genuine)
  {
    match ev.call {
      case DoRegister(body) => NoncesOfRegister(env, st, ev.req, body, ev.now);
      case DoHeartbeat(body) => NoncesOfHeartbeat(env, st, ev.req, body, ev.now);
      case DoSubmit(oversize, body, jobId) =>
        if !oversize { SubmitShape(st, MemberGate(env, ev.req, ev.now), ev.req.memberSig.nonce, body, jobId, ev.now); }
      case DoPull(node) => NoncesOfPull(env, st, ev.req, node, ev.now);
      case DoResult(body) => NoncesOfResult(env, st, ev.req, body, ev.now);
    }
  }

  /** The nonce table is the old one, or the old one with this request's nonce written for a genuine signature. */
  ghost predicate NonceMove(env: Env, before: State, after: State, req: Request, now: nat) {
    || after.nonces == before.nonces
    || (&& (req.nodeId, req.sig.nonce) !in before.nonces
        && after.nonces == before.nonces[(req.nodeId, req.sig.nonce) := NonceRecord(now)]
        && exists key :: CheckHeaders(env, req, req.sig, key, now) == Genuine)
  }

  lemma SignatureMoves(env: Env, st: State, req: Request, key: string, now: nat)
    ensures NonceMove(env, st, CheckSignature(env, st, req, key, now).0, req, now)
  {
    SignatureShape(env, st, req, key, now);
  }

  lemma NoncesOfRegister(env: Env, st: State, req: Request, checked: Checked<RegisterBody>, now: nat)
    ensures NonceMove(env, st, Register(env, st, req, checked, now).state, req, now)
  {
    if checked.Fields? {
      var body := checked.value;
      SignatureMoves(env, st, req, if body.nodeId in st.nodes then st.nodes[body.nodeId].verifyKey else body.verifyKey, now);
    }
  }

  lemma NoncesOfHeartbeat(env: Env, st: State, req: Request, checked: Checked<Beat>, now: nat)
    ensures NonceMove(env, st, Heartbeat(env, st, req, checked, now).state, req, now)
  {
    if checked.Fields? && checked.value.nodeId in st.nodes {
      SignatureMoves(env, st, req, st.nodes[checked.value.nodeId].verifyKey, now);
    }
  }

  lemma NoncesOfPull(env: Env, st: State, req: Request, node: string, now: nat)
    ensures NonceMove(env, st, Pull(env, st, req, node, now).state, req, now)
  {
    PullShape(env, st, req, node, now);
    if Pull(env, st, req, node, now).reply.Pulled? {
      var st1 := Noted(st, req, now);
      LoopFrame(st1, ListQueue(st1, node, PULL_MAX * 4), node, now, PULL_MAX);
    }
  }

  lemma NoncesOfResult(env: Env, st: State, req: Request, checked: Checked<ResultBody>, now: nat)
    ensures NonceMove(env, st, Result(env, st, req, checked, now).state, req, now)
  {
    if req.nodeId in st.nodes { SignatureMoves(env, st, req, st.nodes[req.nodeId].verifyKey, now); }
  }

  lemma MemberNonces(env: Env, st: State, ev: Event, member: string, nonce: string)
    requires ev.Handle?
    ensures var next := Step(env, st, ev).state;
            && Kept(Lookup(st, MemberNonceKey(member, nonce)), Lookup(next, MemberNonceKey(member, nonce)), ev.now)
            && ((member, nonce) in next.memberNonces && (member, nonce) !in st.memberNonces ==>
                  ev.call.DoSubmit? && MemberGate(env, ev.req, ev.now) == ByMember(member) && ev.req.memberSig.nonce == nonce)
  {
    match ev.call {
      case DoSubmit(oversize, body, jobId) =>
        if !oversize {
          MemberNoncesOfSubmit(st, MemberGate(env, ev.req, ev.now), ev.req.memberSig.nonce, body, jobId, ev.now);
        }
      case DoPull(node) =>
        PullShape(env, st, ev.req, node, ev.now);
        if Pull(env, st, ev.req, node, ev.now).reply.Pulled? {
          var st1 := Noted(st, ev.req, ev.now);
          LoopFrame(st1, ListQueue(st1, node, PULL_MAX * 4), node, ev.now, PULL_MAX);
        }
      case DoResult(body) => ResultSparesMembers(env, st, ev.req, body, ev.now);
      case _ => NodeCallsSpareJobs(env, st, ev);
    }
  }

  lemma ResultSparesMembers(env: Env, st: State, req: Request, checked: Checked<ResultBody>, now: nat)
    ensures Result(env, st, req, checked, now).state.memberNonces == st.memberNonces
  {
    if req.nodeId in st.nodes { SignatureShape(env, st, req, st.nodes[req.nodeId].verifyKey, now); }
  }

  lemma MemberNoncesOfSubmit(st: State, gate: Gate, nonce: string, checked: Checked<SubmitBody>, jobId: string, now: nat)
    ensures var after := SubmitThrough(st, gate, nonce, checked, jobId, now).state;
            || after.memberNonces == st.memberNonces
            || (gate.ByMember? && (gate.key, nonce) !in st.memberNonces
                && after.memberNonces == st.memberNonces[(gate.key, nonce) := NonceRecord(now)])
  {
    match gate {
      case ByMember(key) =>
        var st1 := Gated(st, gate, nonce, now);
        AdmitShape(st1, checked, jobId, now);
        if checked.Fields? { EnqueueShape(st1, checked.value, jobId, now); }
      case Open =>
        AdmitShape(st, checked, jobId, now);
        if checked.Fields? { EnqueueShape(st, checked.value, jobId, now); }
      case Denied =>
    }
  }

  lemma RecordStep(env: Env, st: State, ev: Event, c: Credential)
    requires ev.Handle?
    ensures Kept(Lookup(st, RecordKey(c)), Lookup(Step(env, st, ev).state, RecordKey(c)), ev.now)
  {
    match c {
      case NodeCredential(signer, _, nonce) => NodeNonces(env, st, ev, signer, nonce);
      case MemberCredential(member, _, nonce) => MemberNonces(env, st, ev, member, nonce);
    }
  }

  /** The signature headers an event's credential was read from. */
  function HeadersOf(ev: Event, c: Credential): SigHeaders
    requires ev.Handle?
  {
    if c.NodeCredential? then ev.req.sig else ev.req.memberSig
  }

  /** A spent nonce was spent on a genuine signature, and its record carries the time. */
  lemma AcceptedIsGenuine(env: Env, st: State, ev: Event, c: Credential)
    requires Accepts(env, st, ev, c)
    ensures exists key :: CheckHeaders(env, ev.req, HeadersOf(ev, c), key, ev.now) == Genuine
    ensures HeadersOf(ev, c).timestamp == c.timestamp
    ensures Lookup(Step(env, st, ev).state, RecordKey(c)) == Some(NonceValue(NonceRecord(ev.now)))
  {
    hide Step, MemberGate, CheckHeaders, NonceRecord;
    RecordStep(env, st, ev, c);
    match c {
      case NodeCredential(signer, _, nonce) =>
        NodeNonces(env, st, ev, signer, nonce);
        assert HeadersOf(ev, c) == ev.req.sig;
        var key :| CheckHeaders(env, ev.req, ev.req.sig, key, ev.now) == Genuine;
        assert CheckHeaders(env, ev.req, HeadersOf(ev, c), key, ev.now) == Genuine;
      case MemberCredential(member, _, nonce) =>
        MemberIsGenuine(env, ev.req, member, ev.now);
        assert CheckHeaders(env, ev.req, HeadersOf(ev, c), member, ev.now) == Genuine;
    }
  }

  lemma GenuineInWindow(env: Env, req: Request, h: SigHeaders, key: string, now: nat)
    requires CheckHeaders(env, req, h, key, now) == Genuine
    ensures Decimal.AllDigits(h.timestamp) && Abs(now / 1000 - Decimal.Read(h.timestamp)) <= MAX_SKEW_S
  {
  }

  /** An accepted credential is dated within five minutes of the second that accepts it. */
  lemma AcceptedInWindow(env: Env, st: State, ev: Event, c: Credential)
    requires Accepts(env, st, ev, c)
    ensures Decimal.AllDigits(c.timestamp) && Abs(ev.now / 1000 - Decimal.Read(c.timestamp)) <= 300
    ensures Lookup(Step(env, st, ev).state, RecordKey(c)) == Some(NonceValue(NonceRecord(ev.now)))
  {
    hide Step, MemberGate;
    AcceptedIsGenuine(env, st, ev, c);
    var key :| CheckHeaders(env, ev.req, HeadersOf(ev, c), key, ev.now) == Genuine;
    GenuineInWindow(env, ev.req, HeadersOf(ev, c), key, ev.now);
  }

  lemma MemberIsGenuine(env: Env, req: Request, member: string, now: nat)
    requires MemberGate(env, req, now) == ByMember(member)
    ensures CheckHeaders(env, req, req.memberSig, member, now) == Genuine
  {
  }

  // ---------------------------------------------------------------- when records may disappear

  /** `Lasting`: a record is readable through second t + 600. `ExactTtl`: it is until its millisecond is up. */
  datatype Policy = Lasting | ExactTtl

  predicate MayExpire(policy: Policy, r: Nonce, now: nat) {
    match policy
    case Lasting => now / 1000 > r.t + 600
    case ExactTtl => now >= r.expiresMs
  }

  /** The clock never goes back and no nonce record expires before its time. */
  ghost predicate Timely(env: Env, st: State, events: seq<Event>, policy: Policy, clock: nat)
    decreases |events|
  {
    events != [] ==>
      var ev := events[0];
      && clock <= ev.now
      && (ev.Expire? && Lookup(st, ev.key).Some? && Lookup(st, ev.key).value.NonceValue? ==>
            MayExpire(policy, Lookup(st, ev.key).value.seen, ev.now))
      && Timely(env, Step(env, st, ev).state, events[1..], policy, ev.now)
  }

  /** The earliest millisecond at which a nonce noted at `noted` can be accepted again. */
  predicate Reusable(policy: Policy, noted: nat, now: nat) {
    match policy
    case Lasting => now / 1000 > noted / 1000 + 600
    case ExactTtl => now >= noted + 600_000
  }

  lemma {:induction false} ReacceptedLate(
      env: Env, st: State, events: seq<Event>, policy: Policy, clock: nat, noted: nat, c: Credential, j: nat, at: State)
    requires Timely(env, st, events, policy, clock) && j < |events| && at == Run(env, st, events[..j])
    requires Lookup(st, RecordKey(c)) == Some(NonceValue(NonceRecord(noted)))
    requires Lookup(at, RecordKey(c)).None?
    ensures Reusable(policy, noted, events[j].now)
    decreases |events|
  {
    if j > 0 {
      var (ev, next) := (events[0], Step(env, st, events[0]).state);
      assert events[..j][0] == ev && events[..j][1..] == events[1..][..j - 1];
      ClockRuns(env, next, events[1..], policy, ev.now, j - 1);
      if !(ev.Expire? && ev.key == RecordKey(c)) {
        if ev.Handle? { RecordStep(env, st, ev, c); } else { OtherKeysStay(env, st, ev, RecordKey(c)); }
        ReacceptedLate(env, next, events[1..], policy, ev.now, noted, c, j - 1, at);
      }
    }
  }

  lemma OtherKeysStay(env: Env, st: State, ev: Event, k: Key)
    requires (ev.Expire? && ev.key != k) || ev.Resurface?
    requires k.NonceKey? || k.MemberNonceKey?
    ensures Lookup(Step(env, st, ev).state, k) == Lookup(st, k)
  {
    hide Lookup, Put, Delete;
    match ev {
      case Expire(_, key) => LookupDelete(st, key, k);
      case Resurface(_, slot, entry) => LookupPut(st, QueueKey(slot), EntryValue(entry), k);
    }
  }

  lemma {:induction false} ClockRuns(env: Env, st: State, events: seq<Event>, policy: Policy, clock: nat, j: nat)
    requires Timely(env, st, events, policy, clock) && j < |events|
    ensures clock <= events[j].now
    decreases |events|
  {
    if j > 0 { ClockRuns(env, Step(env, st, events[0]).state, events[1..], policy, events[0].now, j - 1); }
  }

  lemma {:induction false} TimelySuffix(env: Env, st: State, events: seq<Event>, policy: Policy, clock: nat, i: nat)
    requires Timely(env, st, events, policy, clock) && i < |events|
    ensures Timely(env, Run(env, st, events[..i]), events[i..], policy, if i == 0 then clock else events[i - 1].now)
    decreases |events|
  {
    if i == 0 {
      assert events[..0] == [] && events[0..] == events;
    } else {
      TimelySuffix(env, Step(env, st, events[0]).state, events[1..], policy, events[0].now, i - 1);
      assert events[..i][1..] == events[1..][..i - 1] && events[1..][i - 1..] == events[i..];
    }
  }

  lemma {:induction false} RunAppend(env: Env, st: State, a: seq<Event>, b: seq<Event>)
    ensures Run(env, st, a + b) == Run(env, Run(env, st, a), b)
    decreases |a|
  {
    if a == [] {
      assert a + b == b;
    } else {
      assert (a + b)[1..] == a[1..] + b;
      RunAppend(env, Step(env, st, a[0]).state, a[1..], b);
    }
  }

  /** The store in which the i-th event of a run is handled. */
  ghost function At(env: Env, st: State, events: seq<Event>, i: nat): State
    requires i <= |events|
  {
    Run(env, st, events[..i])
  }

  lemma RunBetween(env: Env, st: State, events: seq<Event>, i: nat, j: nat)
    requires i < j < |events|
    ensures var next := Step(env, At(env, st, events, i), events[i]).state;
            At(env, next, events[i..][1..], j - i - 1) == At(env, st, events, j)
  {
    var (head, rest) := (events[..i], events[i..][1..]);
    assert events[..j] == head + ([events[i]] + rest[..j - i - 1]);
    RunAppend(env, st, head, [events[i]] + rest[..j - i - 1]);
    assert ([events[i]] + rest[..j - i - 1])[1..] == rest[..j - i - 1];
  }

  /** Between a nonce's record and its absence later in the run, its time has passed. */
  lemma LapseTakesTime(env: Env, st: State, events: seq<Event>, policy: Policy, c: Credential, i: nat, j: nat)
    requires Timely(env, st, events, policy, 0) && i < j < |events|
    requires var next := Step(env, At(env, st, events, i), events[i]).state;
             Lookup(next, RecordKey(c)) == Some(NonceValue(NonceRecord(events[i].now)))
    requires Lookup(At(env, st, events, j), RecordKey(c)).None?
    ensures Reusable(policy, events[i].now, events[j].now)
  {
    hide Timely, Step, Run, Lookup;
    TimelySuffix(env, st, events, policy, 0, i);
    RunBetween(env, st, events, i, j);
    var next := Step(env, At(env, st, events, i), events[i]).state;
    assert events[i..][1..][j - i - 1] == events[j];
    ReacceptedLate(env, next, events[i..][1..], policy, events[i].now, events[i].now, c, j - i - 1, At(env, st, events, j));
  }

  /** The i-th event of the run has this credential accepted. */
  ghost predicate AcceptedAt(env: Env, st: State, events: seq<Event>, i: nat, c: Credential) {
    i < |events| && Accepts(env, At(env, st, events, i), events[i], c)
  }

  /** Both acceptances of one credential lie in its window, and the second waits for the nonce to lapse. */
  lemma TwoAcceptances(env: Env, st: State, events: seq<Event>, policy: Policy, c: Credential, i: nat, j: nat)
    requires Timely(env, st, events, policy, 0) && i < j
    requires AcceptedAt(env, st, events, i, c) && AcceptedAt(env, st, events, j, c)
    ensures j < |events| && Reusable(policy, events[i].now, events[j].now)
    ensures Decimal.AllDigits(c.timestamp)
    ensures Abs(events[i].now / 1000 - Decimal.Read(c.timestamp)) <= MAX_SKEW_S
    ensures Abs(events[j].now / 1000 - Decimal.Read(c.timestamp)) <= MAX_SKEW_S
  {
    hide Step, MemberGate;
    AcceptedInWindow(env, At(env, st, events, i), events[i], c);
    AcceptedInWindow(env, At(env, st, events, j), events[j], c);
    LapseTakesTime(env, st, events, policy, c, i, j);
  }

  /** If records last through second t + 600, no signed request is ever accepted twice. */
  lemma AcceptedOnce(env: Env, st: State, events: seq<Event>, c: Credential, i: nat, j: nat)
    requires Timely(env, st, events, Lasting, 0) && i < j && AcceptedAt(env, st, events, i, c)
    ensures !AcceptedAt(env, st, events, j, c)
  {
    hide Step, MemberGate;
    if AcceptedAt(env, st, events, j, c) {
      TwoAcceptances(env, st, events, Lasting, c, i, j);
    }
  }

  /** With an exact millisecond time to live, a second acceptance is exactly six hundred seconds after the first. */
  lemma SecondAcceptanceIsTight(env: Env, st: State, events: seq<Event>, c: Credential, i: nat, j: nat)
    requires Timely(env, st, events, ExactTtl, 0) && i < j
    requires AcceptedAt(env, st, events, i, c) && AcceptedAt(env, st, events, j, c)
    ensures j < |events| && events[j].now / 1000 - events[i].now / 1000 == 600
    ensures Decimal.AllDigits(c.timestamp) && events[i].now / 1000 + 300 == Decimal.Read(c.timestamp)
  {
    hide Step, MemberGate;
    TwoAcceptances(env, st, events, ExactTtl, c, i, j);
  }

  // ---------------------------------------------------------------- the bound is met

  /** The store at `now` when the nonce noted earlier lives its exact time. */
  function Aged(st: State, k: Key, now: nat): State {
    if Lookup(st, k).Some? && Lookup(st, k).value.NonceValue? && now >= Lookup(st, k).value.seen.expiresMs
    then Delete(st, k) else st
  }

  /** An accepted request is accepted again exactly when it was 300 seconds early, is 300 late, and its nonce has lapsed. */
  lemma ReplayedExactlyWhen(env: Env, st: State, req: Request, key: string, first: nat, second: nat)
    requires first <= second && CheckSignature(env, st, req, key, first).1.None?
    ensures Decimal.AllDigits(req.sig.timestamp)
    ensures var t := Decimal.Read(req.sig.timestamp);
            var later := Aged(CheckSignature(env, st, req, key, first).0, NonceKey(req.nodeId, req.sig.nonce), second);
            CheckSignature(env, later, req, key, second).1.None?
            <==> first / 1000 + 300 == t && second / 1000 == t + 300 && second - first >= 600_000
  {
    SignatureShape(env, st, req, key, first);
    var noted := CheckSignature(env, st, req, key, first).0;
    var k := NonceKey(req.nodeId, req.sig.nonce);
    assert Lookup(noted, k) == Some(NonceValue(NonceRecord(first)));
    SignatureShape(env, Aged(noted, k, second), req, key, second);
  }
}
