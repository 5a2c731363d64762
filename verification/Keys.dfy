/** The storage key grammar of the coordinator and the field grammars it rests on. */
module Keys {
  import opened Base
  import opened Ordering
  import Decimal

  // ---------------------------------------------------------------- field grammars

  predicate IsAlnum(c: char) {
    'A' <= c <= 'Z' || 'a' <= c <= 'z' || '0' <= c <= '9'
  }

  predicate IsNodeId(s: string) {
    1 <= |s| <= 64 && forall i :: 0 <= i < |s| ==> IsAlnum(s[i]) || s[i] == '.' || s[i] == '_' || s[i] == '-'
  }

  predicate IsJobId(s: string) {
    IsNodeId(s)
  }

  predicate IsIdempotencyKey(s: string) {
    && 1 <= |s| <= 128
    && forall i :: 0 <= i < |s| ==> IsAlnum(s[i]) || s[i] == '.' || s[i] == '_' || s[i] == ':' || s[i] == '-'
  }

  predicate IsHeaderToken(s: string) {
    1 <= |s| <= 128 && forall i :: 0 <= i < |s| ==> IsAlnum(s[i]) || s[i] == '+' || s[i] == '/' || s[i] == '='
  }

  predicate IsTimestamp(s: string) {
    1 <= |s| <= 15 && Decimal.AllDigits(s)
  }

  predicate IsBase64Body(s: string) {
    s != "" && forall i :: 0 <= i < |s| ==> IsAlnum(s[i]) || s[i] == '+' || s[i] == '/'
  }

  /** One or more alphabet characters, then at most two `=`. */
  predicate IsBase64Text(s: string) {
    || IsBase64Body(s)
    || (|s| > 0 && s[|s| - 1..] == "=" && IsBase64Body(s[..|s| - 1]))
    || (|s| > 1 && s[|s| - 2..] == "==" && IsBase64Body(s[..|s| - 2]))
  }

  // ---------------------------------------------------------------- keys

  /** Ten to the sixteenth: the milliseconds below it print in the sixteen digits entries are padded to. */
  const PADDED_LIMIT: nat := 10_000_000_000_000_000

  /** One entry of a node's queue index. */
  datatype Slot = Slot(node: string, createdMs: nat, job: string)

  datatype Key =
    | NodeKey(id: string)
    | JobKey(job: string)
    | QueueKey(slot: Slot)
    | IdemKey(target: string, token: string)
    | NonceKey(signer: string, nonce: string)
    | MemberNonceKey(member: string, nonce: string)
    | JobsDoneKey

  predicate WellFormedSlot(s: Slot) {
    IsNodeId(s.node) && IsJobId(s.job)
  }

  predicate WellFormed(k: Key) {
    match k
    case NodeKey(id) => IsNodeId(id)
    case JobKey(job) => IsJobId(job)
    case QueueKey(slot) => WellFormedSlot(slot)
    case IdemKey(target, token) => IsNodeId(target) && IsIdempotencyKey(token)
    case NonceKey(signer, nonce) => IsNodeId(signer) && IsHeaderToken(nonce)
    case MemberNonceKey(member, nonce) => IsBase64Text(member) && IsHeaderToken(nonce)
    case JobsDoneKey => true
  }

  /** Two segments of a key joined by a colon. */
  function Join(a: string, rest: string): string {
    a + [':'] + rest
  }

  function Padded(createdMs: nat): string {
    Decimal.PadStart(Decimal.Print(createdMs), 16)
  }

  function RenderSlot(s: Slot): string {
    Join("queue", Join(s.node, Join(Padded(s.createdMs), s.job)))
  }

  function QueuePrefix(node: string): string {
    Join("queue", Join(node, ""))
  }

  function Render(k: Key): string {
    match k
    case NodeKey(id) => Join("node", id)
    case JobKey(job) => Join("job", job)
    case QueueKey(slot) => RenderSlot(slot)
    case IdemKey(target, token) => Join("idem", Join(target, token))
    case NonceKey(signer, nonce) => Join("nonce", Join(signer, nonce))
    case MemberNonceKey(member, nonce) => Join("mnonce", Join(member, nonce))
    case JobsDoneKey => Join("__stats__", "jobs_done")
  }

  /** The name of every record, letter for letter. */
  lemma KeyTexts(id: string, token: string)
    ensures Render(NodeKey(id)) == "node:" + id && Render(JobKey(id)) == "job:" + id
    ensures Render(IdemKey(id, token)) == "idem:" + id + ":" + token
    ensures Render(NonceKey(id, token)) == "nonce:" + id + ":" + token
    ensures Render(MemberNonceKey(id, token)) == "mnonce:" + id + ":" + token
    ensures Render(JobsDoneKey) == "__stats__:jobs_done"
  {
    assert [':'] == ":";
  }

  /** An entry's name holds its creation time as a numeral of sixteen digits, more only when the time has more. */
  lemma EntryText(s: Slot) returns (zeros: nat, time: string)
    ensures Render(QueueKey(s)) == "queue:" + s.node + ":" + time + ":" + s.job
    ensures time == Decimal.Zeros(zeros) + Decimal.Print(s.createdMs)
    ensures |time| == 16 || (zeros == 0 && |time| > 16)
    ensures QueuePrefix(s.node) == "queue:" + s.node + ":"
  {
    time := Padded(s.createdMs);
    var digits := Decimal.Print(s.createdMs);
    zeros := if |digits| < 16 then 16 - |digits| else 0;
    assert [':'] == ":";
    assert Decimal.Zeros(0) + digits == digits;
  }

  predicate NoColon(s: string) {
    ':' !in s
  }

  lemma IdsHaveNoColon(s: string)
    requires IsNodeId(s) || IsHeaderToken(s) || IsBase64Text(s) || Decimal.AllDigits(s)
    ensures NoColon(s)
  {
    hide IsBase64Text;
    if IsBase64Text(s) { Base64HasNoColon(s); }
  }

  lemma Base64HasNoColon(s: string)
    requires IsBase64Text(s)
    ensures NoColon(s)
  {
    if !IsBase64Body(s) {
      if s[|s| - 1..] == "=" && IsBase64Body(s[..|s| - 1]) {
        assert s == s[..|s| - 1] + "=";
      } else {
        assert s == s[..|s| - 2] + "==";
      }
    }
  }

  lemma JoinInjective(a: string, x: string, b: string, y: string)
    requires NoColon(a) && NoColon(b) && Join(a, x) == Join(b, y)
    ensures a == b && x == y
  {
    var s := Join(a, x);
    assert s[|a|] == ':' && s[|b|] == ':';
    assert forall i :: 0 <= i < |a| ==> s[i] == a[i] && s[i] != ':';
    assert forall i :: 0 <= i < |b| ==> s[i] == b[i] && s[i] != ':';
    assert a == s[..|a|] && b == s[..|b|];
    assert x == s[|a| + 1..] && y == s[|b| + 1..];
  }

  lemma JoinPrefix(a: string, x: string, b: string, y: string)
    requires NoColon(a) && NoColon(b)
    ensures Join(a, x) <= Join(b, y) <==> a == b && x <= y
  {
    if Join(a, x) <= Join(b, y) {
      var rest := Join(b, y)[|Join(a, x)|..];
      assert Join(b, y) == Join(a, x) + rest == Join(a, x + rest);
      JoinInjective(a, x + rest, b, y);
    }
  }

  lemma PaddedFacts(m: nat)
    ensures |Padded(m)| >= 16 && Decimal.AllDigits(Padded(m)) && Decimal.Read(Padded(m)) == m
    ensures NoColon(Padded(m))
    ensures m < Decimal.Power10(|Padded(m)|)
  {
    Decimal.ReadPad(m, 16);
    IdsHaveNoColon(Padded(m));
    Decimal.ReadBound(Padded(m));
  }

  lemma PaddedWidth(m: nat)
    requires m < PADDED_LIMIT
    ensures |Padded(m)| == 16
  {
    PowerValues();
    Decimal.PrintLength(m, 16);
  }

  lemma LaterIsNoShorter(m: nat, n: nat)
    requires m <= n
    ensures |Padded(m)| <= |Padded(n)|
  {
    PaddedFacts(n);
    Decimal.PrintLength(m, |Padded(n)|);
  }

  lemma SlotInjective(s: Slot, t: Slot)
    requires WellFormedSlot(s) && WellFormedSlot(t) && RenderSlot(s) == RenderSlot(t)
    ensures s == t
  {
    IdsHaveNoColon(s.node);
    IdsHaveNoColon(t.node);
    PaddedFacts(s.createdMs);
    PaddedFacts(t.createdMs);
    JoinInjective("queue", Join(s.node, Join(Padded(s.createdMs), s.job)),
                  "queue", Join(t.node, Join(Padded(t.createdMs), t.job)));
    JoinInjective(s.node, Join(Padded(s.createdMs), s.job), t.node, Join(Padded(t.createdMs), t.job));
    JoinInjective(Padded(s.createdMs), s.job, Padded(t.createdMs), t.job);
  }

  function Tag(k: Key): (t: string)
    ensures NoColon(t)
  {
    match k
    case NodeKey(_) => "node"
    case JobKey(_) => "job"
    case QueueKey(_) => "queue"
    case IdemKey(_, _) => "idem"
    case NonceKey(_, _) => "nonce"
    case MemberNonceKey(_, _) => "mnonce"
    case JobsDoneKey => "__stats__"
  }

  function Rest(k: Key): (r: string)
    ensures Render(k) == Join(Tag(k), r)
  {
    match k
    case NodeKey(id) => id
    case JobKey(job) => job
    case QueueKey(s) => Join(s.node, Join(Padded(s.createdMs), s.job))
    case IdemKey(target, token) => Join(target, token)
    case NonceKey(signer, nonce) => Join(signer, nonce)
    case MemberNonceKey(member, nonce) => Join(member, nonce)
    case JobsDoneKey => "jobs_done"
  }

  /** No two records share a storage key: the six families are injective and pairwise disjoint. */
  lemma KeysInjective(j: Key, k: Key)
    requires WellFormed(j) && WellFormed(k) && Render(j) == Render(k)
    ensures j == k
  {
    JoinInjective(Tag(j), Rest(j), Tag(k), Rest(k));
    match j {
      case NodeKey(_) =>
      case JobKey(_) =>
      case QueueKey(s) => SlotInjective(s, k.slot);
      case IdemKey(target, token) =>
        IdsHaveNoColon(target);
        IdsHaveNoColon(k.target);
        JoinInjective(target, token, k.target, k.token);
      case NonceKey(signer, nonce) =>
        IdsHaveNoColon(signer);
        IdsHaveNoColon(k.signer);
        JoinInjective(signer, nonce, k.signer, k.nonce);
      case MemberNonceKey(member, nonce) =>
        IdsHaveNoColon(member);
        IdsHaveNoColon(k.member);
        JoinInjective(member, nonce, k.member, k.nonce);
      case JobsDoneKey =>
    }
  }

  /** A node's queue prefix matches its own index entries and nothing else in the store. */
  lemma PrefixSelectsNode(node: string, k: Key)
    requires IsNodeId(node) && WellFormed(k)
    ensures QueuePrefix(node) <= Render(k) <==> k.QueueKey? && k.slot.node == node
  {
    JoinPrefix("queue", Join(node, ""), Tag(k), Rest(k));
    if k.QueueKey? {
      IdsHaveNoColon(node);
      IdsHaveNoColon(k.slot.node);
      JoinPrefix(node, "", k.slot.node, Join(Padded(k.slot.createdMs), k.slot.job));
    }
  }

  /** The `node:` prefix of the two scans matches node records only. */
  lemma NodePrefixSelectsNodes(k: Key)
    requires WellFormed(k)
    ensures Join("node", "") <= Render(k) <==> k.NodeKey?
  {
    JoinPrefix("node", "", Tag(k), Rest(k));
  }

  // ---------------------------------------------------------------- order of one queue

  /** Oldest first; one millisecond's entries by job id. */
  predicate Earlier(s: Slot, t: Slot) {
    s.createdMs < t.createdMs || (s.createdMs == t.createdMs && TextLess(s.job, t.job))
  }

  lemma CodesJoin(a: string, b: string)
    ensures Codes(a + b) == Codes(a) + Codes(b)
  {
  }

  lemma SlotText(s: Slot)
    ensures RenderSlot(s) == QueuePrefix(s.node) + (Padded(s.createdMs) + ([':'] + s.job))
  {
  }

  /** Of two times, whether text order of the padded numerals shows which is earlier. */
  predicate AgeShows(m: nat, n: nat) {
    var (lo, hi) := (Min(m, n), if m < n then n else m);
    lo == hi || lo < hi / Decimal.Power10(Excess(lo, hi))
  }

  /** How many digits the later time has more. */
  function Excess(lo: nat, hi: nat): nat {
    if |Padded(lo)| <= |Padded(hi)| then |Padded(hi)| - |Padded(lo)| else 0
  }

  /** The text of an entry past its node's prefix. */
  function SlotTail(s: Slot): string {
    Padded(s.createdMs) + ([':'] + s.job)
  }

  lemma TailsDecide(s: Slot, t: Slot)
    requires s.node == t.node
    ensures TextLess(RenderSlot(s), RenderSlot(t)) <==> TextLess(SlotTail(s), SlotTail(t))
  {
    var p := QueuePrefix(s.node);
    SlotText(s);
    SlotText(t);
    CodesJoin(p, SlotTail(s));
    CodesJoin(p, SlotTail(t));
    LexCommonPrefix(Codes(p), Codes(SlotTail(s)), Codes(SlotTail(t)));
  }

  /** A numeral and what follows it, against the first digits of a numeral and what follows them. */
  lemma BlocksDecide(a: string, x: string, b: string, y: string)
    requires |a| == |b| && Decimal.AllDigits(a) && Decimal.AllDigits(b)
    ensures TextLess(a + x, b + y) <==> Decimal.Read(a) < Decimal.Read(b) || (a == b && TextLess(x, y))
  {
    CodesJoin(a, x);
    CodesJoin(b, y);
    LexBlocks(Codes(a), Codes(b), Codes(x), Codes(y));
    Decimal.TextOrderIsNumeric(a, b);
    if Codes(a) == Codes(b) { CodesInjective(a, b); }
  }

  /** The earlier of two entries lists first exactly when the first digits of the later time exceed it. */
  lemma EarlierListsFirst(s: Slot, t: Slot)
    requires s.createdMs < t.createdMs
    ensures TextLess(SlotTail(s), SlotTail(t)) <==> AgeShows(s.createdMs, t.createdMs)
  {
    hide Decimal.Power10, Decimal.Print, TextLess, LexLess;
    var (a, b) := (Padded(s.createdMs), Padded(t.createdMs));
    PaddedFacts(s.createdMs);
    PaddedFacts(t.createdMs);
    LaterIsNoShorter(s.createdMs, t.createdMs);
    var (x, y) := ([':'] + s.job, [':'] + t.job);
    var (head, rest) := (b[..|a|], b[|a|..]);
    Decimal.ReadPrefix(b, |a|);
    assert b + y == head + (rest + y);
    BlocksDecide(a, x, head, rest + y);
    if rest == "" {
      assert head == b && Excess(s.createdMs, t.createdMs) == 0;
      Decimal.PowerZero();
    } else {
      assert Decimal.IsDigit(b[|a|]) && (rest + y)[0] == b[|a|];
      DigitsBeforeColon(rest + y, x);
    }
  }

  lemma DigitsBeforeColon(d: string, x: string)
    requires d != "" && Decimal.IsDigit(d[0]) && x != "" && x[0] == ':'
    ensures !TextLess(x, d)
  {
  }

  lemma SameTime(s: Slot, t: Slot)
    requires s.createdMs == t.createdMs
    ensures TextLess(SlotTail(s), SlotTail(t)) <==> TextLess(s.job, t.job)
  {
    CodesJoin(Padded(s.createdMs), [':'] + s.job);
    CodesJoin(Padded(s.createdMs), [':'] + t.job);
    LexCommonPrefix(Codes(Padded(s.createdMs)), Codes([':'] + s.job), Codes([':'] + t.job));
    CodesJoin([':'], s.job);
    CodesJoin([':'], t.job);
    LexCommonPrefix(Codes([':']), Codes(s.job), Codes(t.job));
  }

  /**
   * The store lists one node's entries by text. For any two entries that is order by age, then job id,
   * exactly when the later time, cut to as many digits as the earlier one has, still exceeds it.
   */
  lemma QueueOrderExactly(s: Slot, t: Slot)
    requires WellFormedSlot(s) && WellFormedSlot(t) && s.node == t.node
    ensures (TextLess(RenderSlot(s), RenderSlot(t)) <==> Earlier(s, t)) <==> AgeShows(s.createdMs, t.createdMs)
  {
    hide TextLess, Padded, RenderSlot;
    TailsDecide(s, t);
    if s.createdMs < t.createdMs {
      EarlierListsFirst(s, t);
    } else if s.createdMs == t.createdMs {
      SameTime(s, t);
    } else {
      TailsDecide(t, s);
      EarlierListsFirst(t, s);
      if RenderSlot(s) == RenderSlot(t) { SlotInjective(s, t); }
      TextTotal({RenderSlot(s), RenderSlot(t)});
    }
  }

  /** Below ten to the sixteenth milliseconds that condition always holds. */
  lemma QueueOrderIsAge(s: Slot, t: Slot)
    requires WellFormedSlot(s) && WellFormedSlot(t) && s.node == t.node
    requires s.createdMs < PADDED_LIMIT && t.createdMs < PADDED_LIMIT
    ensures TextLess(RenderSlot(s), RenderSlot(t)) <==> Earlier(s, t)
  {
    hide TextLess, RenderSlot, Padded;
    QueueOrderExactly(s, t);
    PaddedWidth(s.createdMs);
    PaddedWidth(t.createdMs);
    Decimal.PowerZero();
  }

  /** Ten to the sixteenth itself lists before the millisecond before it. */
  lemma PaddingRunsOut(node: string, job: string, m: nat, n: nat)
    requires m + 1 == n == Decimal.Power10(16)
    ensures Earlier(Slot(node, m, job), Slot(node, n, job))
    ensures TextLess(RenderSlot(Slot(node, n, job)), RenderSlot(Slot(node, m, job)))
  {
    var (a, b) := (Padded(m), Padded(n));
    LongNumerals(m, n);
    SlotText(Slot(node, m, job));
    SlotText(Slot(node, n, job));
    FirstCharDecides(QueuePrefix(node), b + ([':'] + job), a + ([':'] + job));
  }

  lemma FirstCharDecides(p: string, x: string, y: string)
    requires x != "" && y != "" && x[0] < y[0]
    ensures TextLess(p + x, p + y)
  {
    CodesJoin(p, x);
    CodesJoin(p, y);
    LexCommonPrefix(Codes(p), Codes(x), Codes(y));
  }

  lemma LongNumerals(m: nat, n: nat)
    requires m + 1 == n == Decimal.Power10(16)
    ensures Padded(m)[0] == '9' && Padded(n)[0] == '1'
  {
    hide Decimal.Power10, Decimal.Print;
    PowerValues();
    FirstDigit(m, 15, 9);
    FirstDigit(n, 16, 1);
  }

  lemma PowerValues()
    ensures Decimal.Power10(15) == 1_000_000_000_000_000
    ensures Decimal.Power10(16) == 10_000_000_000_000_000
  {
    assert Decimal.Power10(4) == 10_000;
    assert Decimal.Power10(8) == 100_000_000;
    assert Decimal.Power10(12) == 1_000_000_000_000;
  }

  lemma {:induction false} FirstDigit(n: nat, k: nat, d: nat)
    requires 0 < d < 10 && d * Decimal.Power10(k) <= n < (d + 1) * Decimal.Power10(k)
    ensures |Decimal.Print(n)| == k + 1 && Decimal.Print(n)[0] == Decimal.DigitChar(d)
    decreases k
  {
    if k > 0 {
      TenthBetween(n, d, Decimal.Power10(k - 1), Decimal.Power10(k));
      FirstDigit(n / 10, k - 1, d);
    } else {
      Decimal.PowerZero();
    }
  }

  lemma TenthBetween(n: nat, d: nat, p: nat, q: nat)
    requires d > 0 && p > 0 && q == 10 * p && d * q <= n < (d + 1) * q
    ensures n >= 10 && d * p <= n / 10 < (d + 1) * p
  {
    assert d * q == 10 * (d * p) && (d + 1) * q == 10 * ((d + 1) * p);
    assert d * p >= p;
  }

  lemma EarlierTotal(s: set<Slot>, node: string)
    requires forall k :: k in s ==> k.node == node
    ensures TotalOn(s, Earlier)
  {
    var jobs := set k | k in s :: k.job;
    TextTotal(jobs);
    forall x, y, z | x in s && y in s && z in s && Earlier(x, y) && Earlier(y, z) ensures Earlier(x, z) {
      if x.createdMs == z.createdMs { LexTransitive(Codes(x.job), Codes(y.job), Codes(z.job)); }
    }
  }
}
