/** The MCP enforcement point (mcpgate/mcpgate.go). */
module McpGate {
  import opened Bytes
  import opened Maps
  import opened Record
  import opened TransLog
  import opened Base58
  import opened Decimal
  import opened Binding
  import opened Gate
  import Pep

  datatype ToolCall = ToolCall(to: GoString, asset: GoString, amount: GoString, resource: GoString,
                               nonce: Digest, expiry: Option<int>)

  datatype Config = Config(c: Crypto, al: Allowlist, scheme: GoString, network: GoString, pub: Key, rkey: Key)

  function RequirementsOf(cfg: Config, call: ToolCall): Requirements {
    Requirements(cfg.scheme, cfg.network, call.asset, call.to, call.amount, call.resource)
  }

  function TokenOf(call: ToolCall): Token { Token(call.nonce, call.expiry) }

  /** `translog.Decision(d.Class)`: a raw conversion of the enumeration value. */
  function RawDecision(v: Class): (d: byte)
    ensures d == Pep.MapDecision(v)
  {
    match v
    case Allow => 0
    case DenyViolation => 1
    case DenyUnavailable => 2
  }

  function LogRequest(cfg: Config, d: Decision, stamp: int64): Request {
    Request(cfg.rkey, RawDecision(d.verdict), d.binding, stamp)
  }

  // ----- the one capability a human approved

  datatype ExactPayment = ExactPayment(asset: GoString, payTo: GoString, resource: GoString, maxAmount: uint64)

  function Verify(a: ExactPayment, pr: Requirements): Policy {
    if pr.asset != a.asset || pr.payTo != a.payTo || pr.resource != a.resource then Violation
    else
      match ParseUint64(pr.maxAmount)
      case None => Violation
      case Some(amt) => if amt > a.maxAmount then Violation else Permitted
  }

  /** Permitted is exactly the approved asset, recipient and resource for a readable amount up to the limit. */
  lemma PermittedExactly(a: ExactPayment, pr: Requirements)
    ensures Verify(a, pr).Permitted? <==>
              && pr.asset == a.asset && pr.payTo == a.payTo && pr.resource == a.resource
              && ParseUint64(pr.maxAmount).Some? && ParseUint64(pr.maxAmount).value <= a.maxAmount
    ensures !Verify(a, pr).Outage?
  {
    hide ParseUint64;
  }

  /** p is the approved payment, for an amount within the limit that the encoding keeps. */
  predicate Approved(a: ExactPayment, p: Payment) {
    && DecodePubkey32(a.asset) == Ok(p.asset)
    && DecodePubkey32(a.payTo) == Ok(p.payTo)
    && p.resource == a.resource
    && 0 <= p.amount <= a.maxAmount
    && FromLittleEndian(LittleEndian(p.amount, 16)) == p.amount
  }

  /** What the policy checked is what gets bound: the two parsers read the same number. */
  lemma CheckedAmountIsBound(a: ExactPayment, al: Allowlist, pr: Requirements)
    requires Verify(a, pr).Permitted? && Resolve(al, pr).Ok?
    ensures ParseUint64(pr.maxAmount) == Some(Resolve(al, pr).value.amount)
    ensures Approved(a, Resolve(al, pr).value)
  {
    hide DecodePubkey32, LittleEndian, DigitValue, AllDigits;
    ParsersAgree(pr.maxAmount);
    Pow256Values();
    LittleEndianRoundTrip(Resolve(al, pr).value.amount, 16);
  }

  // ----- Authorize

  /** One call run alone. The Append error is discarded: the decision stands without its entry. */
  function Authorize(cfg: Config, spent: set<Digest>, log: seq<Entry>, call: ToolCall, policy: Policy, up: bool,
                     now: int, stamp: int64): (Decision, set<Digest>, seq<Entry>)
  {
    var (d, spent') := Evaluate(cfg.c.hash, cfg.al, RequirementsOf(cfg, call), TokenOf(call), policy, spent, up, now);
    (d, spent', Append(cfg.c, cfg.pub, log, LogRequest(cfg, d, stamp)))
  }

  /** The call asks for what was approved. */
  predicate Matches(a: ExactPayment, call: ToolCall) {
    && call.asset == a.asset && call.to == a.payTo && call.resource == a.resource
    && ParseUint64(call.amount).Some? && ParseUint64(call.amount).value <= a.maxAmount
  }

  /** The enforcer's scheme and network are admitted and the call's strings are keys and an amount. */
  predicate Bindable(cfg: Config, call: ToolCall) {
    && cfg.scheme in cfg.al.schemes && cfg.network in cfg.al.networks
    && DecodePubkey32(call.asset).Ok? && DecodePubkey32(call.to).Ok?
    && ParseUint64(call.amount).Some?
  }

  /** The call's own payment: its keys decoded, its amount as written, its resource. */
  function PaymentOf(cfg: Config, call: ToolCall): (p: Payment)
    requires Bindable(cfg, call)
    ensures 0 <= p.amount < TWO128
  {
    Payment(cfg.al.schemes[cfg.scheme], cfg.al.networks[cfg.network], DecodePubkey32(call.asset).value,
            DecodePubkey32(call.to).value, ParseUint64(call.amount).value, call.resource)
  }

  predicate FreshAt(call: ToolCall, now: int) {
    call.expiry.None? || now <= call.expiry.value
  }

  /** The call asks for what was approved, and the decision is the binding of that payment to its nonce. */
  predicate BindsApproved(cfg: Config, a: ExactPayment, call: ToolCall, d: Decision) {
    && Matches(a, call) && Bindable(cfg, call)
    && d.binding == cfg.c.hash(Preimage(cfg.c.hash, PaymentOf(cfg, call), call.nonce))
  }

  lemma ResolvesToPayment(cfg: Config, call: ToolCall)
    requires ParseUint64(call.amount).Some?
    ensures var r := Resolve(cfg.al, RequirementsOf(cfg, call));
            && (r.Ok? <==> Bindable(cfg, call))
            && (r.Ok? ==> r.value == PaymentOf(cfg, call))
  {
    hide DecodePubkey32, ParseUint64, ParseBig, Resolve;
    ParsersAgree(call.amount);
    ResolveExactly(cfg.al, RequirementsOf(cfg, call));
  }

  /**
   Under an ExactPayment policy a call is allowed exactly when it asks for the approved payment with
   strings that bind, before its expiry, on an unspent nonce and with the store up. The decision
   then binds that very payment, field by field, to the call's nonce.
   */
  lemma AllowBindsApproved(cfg: Config, a: ExactPayment, spent: set<Digest>, log: seq<Entry>, call: ToolCall, up: bool,
                           now: int, stamp: int64)
    ensures var (d, _, _) := Authorize(cfg, spent, log, call, Verify(a, RequirementsOf(cfg, call)), up, now, stamp);
            && (d.verdict.Allow? <==>
                  Matches(a, call) && Bindable(cfg, call) && FreshAt(call, now) && up && call.nonce !in spent)
            && (d.verdict.Allow? ==> BindsApproved(cfg, a, call, d))
  {
    hide Verify, Preimage, Append, Resolve, Evaluate, Bindable, PaymentOf, ParseUint64;
    var pr := RequirementsOf(cfg, call);
    EvaluateExactly(cfg.c.hash, cfg.al, pr, TokenOf(call), Verify(a, pr), spent, up, now);
    PermittedExactly(a, pr);
    if ParseUint64(call.amount).Some? {
      ResolvesToPayment(cfg, call);
    }
  }

  /** The log gains the call's entry exactly when the signature on it verifies; the decision does not depend on it. */
  lemma EntryExactlyIfVerifies(cfg: Config, spent: set<Digest>, log: seq<Entry>, call: ToolCall, policy: Policy,
                               up: bool, now: int, stamp: int64)
    ensures var (d, _, log') := Authorize(cfg, spent, log, call, policy, up, now, stamp);
            var r := NextRecord(cfg.c, log, LogRequest(cfg, d, stamp));
            && d == Evaluate(cfg.c.hash, cfg.al, RequirementsOf(cfg, call), TokenOf(call), policy, spent, up, now).0
            && (|log'| == |log| + 1 <==> VerifySig(cfg.c, cfg.pub, r, Sign(cfg.c, cfg.rkey, r)))
            && (|log'| != |log| + 1 ==> log' == log)
            && (|log'| == |log| + 1 ==> log'[..|log|] == log && log'[|log|].record == r)
            && r.decision == RawDecision(d.verdict) && r.binding == d.binding && r.issuedAt == stamp
  {
    hide ComputeBinding, CanonicalBytes, PrevOf;
  }

  class Enforcer {
    const cfg: Config
    const log: Log
    const spend: MemSpendLog

    constructor (cfg: Config, log: Log, spend: MemSpendLog)
      ensures this.cfg == cfg && this.log == log && this.spend == spend
    {
      this.cfg, this.log, this.spend := cfg, log, spend;
    }

    /** The discarded Append error shows up only as a log that did not grow. */
    method AuthorizeCall(call: ToolCall, policy: Policy, up: bool, now: int, stamp: int64) returns (d: Decision)
      requires log.c == cfg.c && log.pub == cfg.pub
      modifies log, spend
      ensures (d, spend.seen, log.entries)
              == Authorize(cfg, old(spend.seen), old(log.entries), call, policy, up, now, stamp)
    {
      d := EvaluateWith(cfg.c.hash, cfg.al, RequirementsOf(cfg, call), TokenOf(call), policy, spend, up, now);
      var _ := log.AppendEntry(LogRequest(cfg, d, stamp));
    }
  }

  // ----- concurrent calls

  type Cid = nat

  /** A returned call keeps the time it appended with. */
  datatype PC = Requested | Decided(d: Decision) | Returned(d: Decision, stamp: int64)

  /** `order` records which call each append belonged to. */
  datatype State = State(spent: set<Digest>, log: seq<Entry>, pcs: map<Cid, PC>, order: seq<Cid>)

  datatype Env = Env(policy: Policy, up: bool, now: int, stamp: int64)

  type Schedule = seq<(Cid, Env)>

  /** A call first decides (its one shared effect is the atomic Spend), then appends. */
  function Step(cfg: Config, calls: map<Cid, ToolCall>, s: State, id: Cid, env: Env): State {
    if id !in calls || id !in s.pcs then s
    else
      match s.pcs[id]
      case Requested =>
        var (d, spent') := Evaluate(cfg.c.hash, cfg.al, RequirementsOf(cfg, calls[id]), TokenOf(calls[id]),
                                    env.policy, s.spent, env.up, env.now);
        s.(spent := spent', pcs := s.pcs[id := Decided(d)])
      case Decided(d) =>
        State(s.spent, Append(cfg.c, cfg.pub, s.log, LogRequest(cfg, d, env.stamp)),
              s.pcs[id := Returned(d, env.stamp)], s.order + [id])
      case Returned(_, _) => s
  }

  function Exec(cfg: Config, calls: map<Cid, ToolCall>, s: State, sch: Schedule): State
    decreases |sch|
  {
    if sch == [] then s else Exec(cfg, calls, Step(cfg, calls, s, sch[0].0, sch[0].1), sch[1..])
  }

  /** Entry k after base records the decision returned to the k-th call to append. */
  ghost predicate EvidenceAgrees(s: State, base: nat) {
    && |s.log| == base + |s.order|
    && (forall k :: 0 <= k < |s.order| ==>
          && s.order[k] in s.pcs && s.pcs[s.order[k]].Returned?
          && s.log[base + k].record.decision == RawDecision(s.pcs[s.order[k]].d.verdict)
          && s.log[base + k].record.binding == s.pcs[s.order[k]].d.binding
          && s.log[base + k].record.issuedAt == s.pcs[s.order[k]].stamp)
    && (forall j, k :: 0 <= j < k < |s.order| ==> s.order[j] != s.order[k])
    && (forall id :: id in s.pcs && s.pcs[id].Returned? ==> id in s.order)
  }

  lemma AppendWithKeys(cfg: Config, log: seq<Entry>, d: Decision, stamp: int64)
    requires KeyPair(cfg.c, cfg.rkey, cfg.pub)
    ensures var log' := Append(cfg.c, cfg.pub, log, LogRequest(cfg, d, stamp));
            && |log'| == |log| + 1 && log'[..|log|] == log
            && log'[|log|].record.decision == RawDecision(d.verdict)
            && log'[|log|].record.binding == d.binding
            && log'[|log|].record.issuedAt == stamp
  {
    hide CanonicalBytes, PrevOf;
  }

  lemma StepAgrees(cfg: Config, calls: map<Cid, ToolCall>, s: State, base: nat, id: Cid, env: Env)
    requires KeyPair(cfg.c, cfg.rkey, cfg.pub) && EvidenceAgrees(s, base)
    ensures EvidenceAgrees(Step(cfg, calls, s, id, env), base)
  {
    hide Append, Evaluate, RawDecision, KeyPair;
    if id in calls && id in s.pcs && s.pcs[id].Decided? {
      var s' := Step(cfg, calls, s, id, env);
      AppendWithKeys(cfg, s.log, s.pcs[id].d, env.stamp);
      assert s'.log[..|s.log|] == s.log;
      assert forall i :: 0 <= i < |s.log| ==> s'.log[i] == s'.log[..|s.log|][i];
    }
  }

  /**
   With the matching key, in every interleaving of calls the log gains exactly one entry per
   returned call, and its decisions and bindings are the returned ones in append order.
   */
  lemma {:induction false} EvidenceAgreesInEveryRun(cfg: Config, calls: map<Cid, ToolCall>, s: State, base: nat,
                                                    sch: Schedule)
    requires KeyPair(cfg.c, cfg.rkey, cfg.pub) && EvidenceAgrees(s, base)
    ensures EvidenceAgrees(Exec(cfg, calls, s, sch), base)
    decreases |sch|
  {
    hide EvidenceAgrees, Step, KeyPair;
    if sch == [] {
    } else {
      StepAgrees(cfg, calls, s, base, sch[0].0, sch[0].1);
      EvidenceAgreesInEveryRun(cfg, calls, Step(cfg, calls, s, sch[0].0, sch[0].1), base, sch[1..]);
    }
  }

  /** Every call requested, over what was spent and appended before. */
  function Fresh(calls: map<Cid, ToolCall>, spent: set<Digest>, log: seq<Entry>): State {
    State(spent, log, map id | id in calls :: Requested, [])
  }

  function Members(ids: seq<Cid>): (ms: set<Cid>)
    ensures forall id :: id in ms <==> id in ids
  {
    if ids == [] then {} else Members(ids[1..]) + {ids[0]}
  }

  lemma {:induction false} NoRepeatsSize(ids: seq<Cid>)
    requires forall j, k :: 0 <= j < k < |ids| ==> ids[j] != ids[k]
    ensures |Members(ids)| == |ids|
    decreases |ids|
  {
    if ids == [] {
    } else {
      NoRepeatsSize(ids[1..]);
      assert ids[0] !in ids[1..];
    }
  }

  lemma {:induction false} CallsStay(cfg: Config, calls: map<Cid, ToolCall>, s: State, sch: Schedule)
    ensures Exec(cfg, calls, s, sch).pcs.Keys == s.pcs.Keys
    decreases |sch|
  {
    hide Evaluate, Append;
    if sch == [] {
    } else {
      CallsStay(cfg, calls, Step(cfg, calls, s, sch[0].0, sch[0].1), sch[1..]);
    }
  }

  /**
   With the matching key, however fresh calls interleave, once every call has returned the log
   has grown by exactly one entry per call.
   */
  lemma OneEntryPerCall(cfg: Config, calls: map<Cid, ToolCall>, spent: set<Digest>, log: seq<Entry>, sch: Schedule)
    requires KeyPair(cfg.c, cfg.rkey, cfg.pub)
    requires var s' := Exec(cfg, calls, Fresh(calls, spent, log), sch);
             forall id :: id in s'.pcs ==> s'.pcs[id].Returned?
    ensures |Exec(cfg, calls, Fresh(calls, spent, log), sch).log| == |log| + |calls|
  {
    hide Exec, KeyPair, RawDecision;
    var s := Fresh(calls, spent, log);
    EvidenceAgreesInEveryRun(cfg, calls, s, |log|, sch);
    CallsStay(cfg, calls, s, sch);
    AllReturnedCount(Exec(cfg, calls, s, sch), |log|);
    assert s.pcs.Keys == calls.Keys;
  }

  lemma AllReturnedCount(s: State, base: nat)
    requires EvidenceAgrees(s, base) && forall id :: id in s.pcs ==> s.pcs[id].Returned?
    ensures |s.log| == base + |s.pcs.Keys|
  {
    hide RawDecision;
    NoRepeatsSize(s.order);
    assert Members(s.order) == s.pcs.Keys;
  }

  // ----- which of its own moves decide a call, in every run

  lemma {:induction false} ExecLast(cfg: Config, calls: map<Cid, ToolCall>, s: State, sch: Schedule)
    requires sch != []
    ensures var n := |sch| - 1;
            Exec(cfg, calls, s, sch) == Step(cfg, calls, Exec(cfg, calls, s, sch[..n]), sch[n].0, sch[n].1)
    decreases |sch|
  {
    hide Step;
    var n := |sch| - 1;
    if n == 0 {
      assert sch[1..] == [];
    } else {
      ExecLast(cfg, calls, Step(cfg, calls, s, sch[0].0, sch[0].1), sch[1..]);
      assert sch[1..][..n - 1] == sch[..n][1..];
    }
  }

  /** Call id makes move k and none in lo..k. */
  ghost predicate NextMove(sch: Schedule, id: Cid, lo: nat, k: nat) {
    lo <= k < |sch| && sch[k].0 == id && forall j :: lo <= j < k ==> sch[j].0 != id
  }

  /** The decision Evaluate takes on what move k finds. */
  function DecisionAt(cfg: Config, calls: map<Cid, ToolCall>, s: State, sch: Schedule, id: Cid, k: nat): Decision
    requires k < |sch| && id in calls
  {
    var env := sch[k].1;
    Evaluate(cfg.c.hash, cfg.al, RequirementsOf(cfg, calls[id]), TokenOf(calls[id]), env.policy,
             Exec(cfg, calls, s, sch[..k]).spent, env.up, env.now).0
  }

  /** Where a call stands, in terms of its first and second own move. */
  ghost predicate Explains(cfg: Config, calls: map<Cid, ToolCall>, s: State, sch: Schedule, id: Cid,
                           decide: Option<nat>, append: Option<nat>)
    requires id in calls
  {
    var s' := Exec(cfg, calls, s, sch);
    && id in s'.pcs
    && (decide.None? ==> append.None? && s'.pcs[id].Requested? && forall j :: 0 <= j < |sch| ==> sch[j].0 != id)
    && (decide.Some? ==>
          && NextMove(sch, id, 0, decide.value) && !s'.pcs[id].Requested?
          && s'.pcs[id].d == DecisionAt(cfg, calls, s, sch, id, decide.value)
          && (append.None? ==> s'.pcs[id].Decided? && forall j :: decide.value < j < |sch| ==> sch[j].0 != id)
          && (append.Some? ==>
                && NextMove(sch, id, decide.value + 1, append.value) && s'.pcs[id].Returned?
                && s'.pcs[id].stamp == sch[append.value].1.stamp))
  }

  lemma {:induction false} RunExplains(cfg: Config, calls: map<Cid, ToolCall>, s: State, sch: Schedule, id: Cid)
    returns (decide: Option<nat>, append: Option<nat>)
    requires id in calls && id in s.pcs && s.pcs[id].Requested?
    ensures Explains(cfg, calls, s, sch, id, decide, append)
    decreases |sch|
  {
    hide Exec, Evaluate, Append;
    if sch == [] {
      assert Exec(cfg, calls, s, sch) == s by { ExecNothing(cfg, calls, s, sch); }
      decide, append := None, None;
    } else {
      var n := |sch| - 1;
      var init := sch[..n];
      decide, append := RunExplains(cfg, calls, s, init, id);
      ExecLast(cfg, calls, s, sch);
      if decide.Some? {
        assert init[..decide.value] == sch[..decide.value];
      }
      if sch[n].0 == id {
        var pc := Exec(cfg, calls, s, init).pcs[id];
        if pc.Requested? { decide := Some(n); }
        if pc.Decided? { append := Some(n); }
      }
    }
  }

  lemma ExecNothing(cfg: Config, calls: map<Cid, ToolCall>, s: State, sch: Schedule)
    requires sch == []
    ensures Exec(cfg, calls, s, sch) == s
  {
  }

  /**
   In every interleaving of fresh calls, a call's first own move decides it, as Evaluate does on the
   policy, time, store and spent nonces of that move, and its second own move returns it, with the
   time of that move in its entry. Nothing another call does changes a decision taken.
   */
  lemma DecisionInEveryRun(cfg: Config, calls: map<Cid, ToolCall>, spent: set<Digest>, log: seq<Entry>, sch: Schedule,
                           id: Cid) returns (decide: nat, append: Option<nat>)
    requires id in calls
    requires var s' := Exec(cfg, calls, Fresh(calls, spent, log), sch); id in s'.pcs && !s'.pcs[id].Requested?
    ensures NextMove(sch, id, 0, decide)
    ensures var pc := Exec(cfg, calls, Fresh(calls, spent, log), sch).pcs[id];
            && pc.d == DecisionAt(cfg, calls, Fresh(calls, spent, log), sch, id, decide)
            && (append.Some? <==> pc.Returned?)
            && (append.Some? ==> NextMove(sch, id, decide + 1, append.value) && pc.stamp == sch[append.value].1.stamp)
  {
    hide Exec, DecisionAt, NextMove;
    var first: Option<nat>;
    first, append := RunExplains(cfg, calls, Fresh(calls, spent, log), sch, id);
    decide := first.value;
  }

  // ----- single use and the approved capability, in every run

  predicate Allowed(pc: PC) {
    !pc.Requested? && pc.d.verdict.Allow?
  }

  /** The nonce of each allowed call. */
  function SpentBy(calls: map<Cid, ToolCall>, s: State): map<Cid, Digest> {
    map id | id in s.pcs && id in calls && Allowed(s.pcs[id]) :: calls[id].nonce
  }

  /** The nonces spent since are exactly those of allowed calls, one each. */
  ghost predicate NoncesMatch(calls: map<Cid, ToolCall>, s: State, before: set<Digest>) {
    && OneToOne(SpentBy(calls, s))
    && SpentBy(calls, s).Values !! before
    && s.spent == before + SpentBy(calls, s).Values
  }

  /** One call moves: its nonce enters the spend log exactly with its ALLOW. */
  lemma NoncesMove(calls: map<Cid, ToolCall>, s: State, before: set<Digest>, s': State, id: Cid, pc: PC)
    requires NoncesMatch(calls, s, before) && id in calls && id in s.pcs && s'.pcs == s.pcs[id := pc]
    requires Allowed(s.pcs[id]) ==> Allowed(pc)
    requires if Allowed(pc) && !Allowed(s.pcs[id])
             then calls[id].nonce !in s.spent && s'.spent == s.spent + {calls[id].nonce}
             else s'.spent == s.spent
    ensures NoncesMatch(calls, s', before)
  {
    hide Allowed;
    if Allowed(pc) && !Allowed(s.pcs[id]) {
      AddOneToOne(SpentBy(calls, s), id, calls[id].nonce);
      assert SpentBy(calls, s') == SpentBy(calls, s)[id := calls[id].nonce];
    } else {
      assert SpentBy(calls, s') == SpentBy(calls, s);
    }
  }

  lemma StepKeepsNonces(cfg: Config, calls: map<Cid, ToolCall>, s: State, before: set<Digest>, id: Cid, env: Env)
    requires NoncesMatch(calls, s, before)
    ensures NoncesMatch(calls, Step(cfg, calls, s, id, env), before)
  {
    hide Append, Evaluate, NoncesMatch, ComputeBinding;
    if id in calls && id in s.pcs {
      var s' := Step(cfg, calls, s, id, env);
      if s.pcs[id].Requested? {
        EvaluateExactly(cfg.c.hash, cfg.al, RequirementsOf(cfg, calls[id]), TokenOf(calls[id]),
                        env.policy, s.spent, env.up, env.now);
      }
      if !s.pcs[id].Returned? {
        NoncesMove(calls, s, before, s', id, s'.pcs[id]);
      }
    }
  }

  lemma {:induction false} RunKeepsNonces(cfg: Config, calls: map<Cid, ToolCall>, s: State, before: set<Digest>,
                                          sch: Schedule)
    requires NoncesMatch(calls, s, before)
    ensures NoncesMatch(calls, Exec(cfg, calls, s, sch), before)
    decreases |sch|
  {
    hide NoncesMatch, Step;
    if sch == [] {
    } else {
      StepKeepsNonces(cfg, calls, s, before, sch[0].0, sch[0].1);
      RunKeepsNonces(cfg, calls, Step(cfg, calls, s, sch[0].0, sch[0].1), before, sch[1..]);
    }
  }

  /**
   In every interleaving of fresh calls the nonces spent are those spent before and those of the
   allowed calls, disjointly and one nonce per call.
   */
  lemma CallsSpendOnce(cfg: Config, calls: map<Cid, ToolCall>, spent: set<Digest>, log: seq<Entry>, sch: Schedule)
    ensures var s' := Exec(cfg, calls, Fresh(calls, spent, log), sch);
            && s'.spent == spent + SpentBy(calls, s').Values
            && spent !! SpentBy(calls, s').Values
            && |s'.spent| == |spent| + |SpentBy(calls, s')|
            && OneToOne(SpentBy(calls, s'))
  {
    hide Exec;
    assert SpentBy(calls, Fresh(calls, spent, log)) == map[];
    RunKeepsNonces(cfg, calls, Fresh(calls, spent, log), spent, sch);
    OneToOneSize(SpentBy(calls, Exec(cfg, calls, Fresh(calls, spent, log), sch)));
  }

  /** Every step of the schedule evaluates the approved capability. */
  ghost predicate Enforces(cfg: Config, calls: map<Cid, ToolCall>, a: ExactPayment, sch: Schedule) {
    forall k :: 0 <= k < |sch| && sch[k].0 in calls ==>
                  sch[k].1.policy == Verify(a, RequirementsOf(cfg, calls[sch[k].0]))
  }

  /** In every interleaving of fresh calls, what an ALLOW was decided on: the move of the call that decided it. */
  lemma EveryAllowBindsApproved(cfg: Config, calls: map<Cid, ToolCall>, a: ExactPayment,
                                spent: set<Digest>, log: seq<Entry>, sch: Schedule, id: Cid) returns (k: nat)
    requires Enforces(cfg, calls, a, sch) && id in calls
    requires var s' := Exec(cfg, calls, Fresh(calls, spent, log), sch); id in s'.pcs && Allowed(s'.pcs[id])
    ensures BindsApproved(cfg, a, calls[id], Exec(cfg, calls, Fresh(calls, spent, log), sch).pcs[id].d)
    ensures k < |sch| && sch[k].0 == id && FreshAt(calls[id], sch[k].1.now) && sch[k].1.up
    ensures calls[id].nonce !in Exec(cfg, calls, Fresh(calls, spent, log), sch[..k]).spent
  {
    hide BindsApproved, Exec, Evaluate, Verify, FreshAt, Matches, Bindable, Append;
    var append: Option<nat>;
    k, append := DecisionInEveryRun(cfg, calls, spent, log, sch, id);
    var env, found := sch[k].1, Exec(cfg, calls, Fresh(calls, spent, log), sch[..k]);
    AllowBindsApproved(cfg, a, found.spent, found.log, calls[id], env.up, env.now, env.stamp);
  }

  /** The key matters: if the log's key rejects what RKey signs, a call is allowed and leaves no entry. */
  lemma MismatchedKeyLeavesNoEntry(cfg: Config, call: ToolCall, log: seq<Entry>, stamp: int64)
    requires forall msg :: !cfg.c.verify(cfg.pub, msg, cfg.c.sign(cfg.rkey, msg))
    requires ComputeBinding(cfg.c.hash, cfg.al, RequirementsOf(cfg, call), call.nonce).Ok? && call.expiry.None?
    ensures var (d, _, log') := Authorize(cfg, {}, log, call, Permitted, true, 0, stamp);
            d.verdict.Allow? && log' == log
  {
    hide ComputeBinding, CanonicalBytes, PrevOf;
  }
}
