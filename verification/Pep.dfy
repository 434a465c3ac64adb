/**
 The HTTP enforcement point (gateway/pep.go). Each request is a process that binds, checks
 freshness, asks the policy, spends, emits a receipt, appends to the log and serves; each
 point is one step, and any dependency may fail at its step. A schedule interleaves the
 steps of any number of requests over the shared spend log, receipts and transparency log.
 */
module Pep {
  import opened Bytes
  import opened Record
  import opened TransLog
  import opened Binding
  import opened Gate

  type Rid = nat

  /** A request as the handler sees it: a parsed token or none, and what the resource demands. */
  datatype Req = Req(token: Option<Token>, pr: Requirements)

  datatype Config = Config(c: Crypto, al: Allowlist, pub: Key, rkey: Key)

  datatype ReceiptClass = ClassOk | ClassViolation | ClassUnavailable

  datatype Receipt = Receipt(permit: bool, kind: ReceiptClass, intent: Digest)

  function ReceiptFor(d: Decision): (r: Receipt)
    ensures r.permit <==> d.verdict.Allow?
    ensures r.kind.ClassUnavailable? <==> d.verdict.DenyUnavailable?
    ensures r.kind.ClassOk? <==> d.verdict.Allow?
    ensures r.intent == d.binding
  {
    match d.verdict
    case Allow => Receipt(true, ClassOk, d.binding)
    case DenyViolation => Receipt(false, ClassViolation, d.binding)
    case DenyUnavailable => Receipt(false, ClassUnavailable, d.binding)
  }

  function MapDecision(v: Class): (d: byte)
    ensures d == 0 <==> v.Allow?
    ensures d == 1 <==> v.DenyViolation?
    ensures d == 2 <==> v.DenyUnavailable?
  {
    match v
    case Allow => ALLOW
    case DenyViolation => DENY_VIOLATION
    case DenyUnavailable => DENY_UNAVAILABLE
  }

  datatype Shared = Shared(spent: set<Digest>, receipts: seq<Receipt>, log: seq<Entry>)

  /**
   Where a request is, with the local variables the handler holds there. `receipt` and
   `entry` are positions; `at` is the log length when the receipt became durable. A denial
   has no receipt or no entry when recording it failed.
   */
  datatype PC =
    | Arrived
    | Parsed(tok: Token)
    | Bound(tok: Token, b: Digest)
    | Fresh(tok: Token, b: Digest)
    | Cleared(tok: Token, b: Digest)
    | Granted(tok: Token, b: Digest)
    | Receipted(tok: Token, b: Digest, receipt: nat, at: nat)
    | Logged(tok: Token, b: Digest, receipt: nat, at: nat, entry: nat)
    | Served(tok: Token, b: Digest, receipt: nat, at: nat, entry: nat)
    | EmitFailed(tok: Token, b: Digest)
    | AppendFailed(tok: Token, b: Digest, receipt: nat)
    | Denying(d: Decision)
    | DenyReceipted(d: Decision, maybeReceipt: Option<nat>)
    | DenyLogged(d: Decision, maybeReceipt: Option<nat>, maybeEntry: Option<nat>)
    | Denied(d: Decision, maybeReceipt: Option<nat>, maybeEntry: Option<nat>)
    | Unauthorized

  /** What the surroundings answer at a step; each step looks only at what it asks. */
  datatype Env = Env(policy: Policy, storeUp: bool, emitOk: bool, now: int, stamp: int64)

  predicate Answered(pc: PC) {
    pc.Served? || pc.EmitFailed? || pc.AppendFailed? || pc.Denied? || pc.Unauthorized?
  }

  /** The HTTP status of an answered request; 200 stands for the wrapped handler's own answer. */
  function Status(pc: PC): nat
    requires Answered(pc)
  {
    match pc
    case Served(_, _, _, _, _) => 200
    case Unauthorized => 401
    case Denied(d, _, _) => if d.verdict.DenyUnavailable? then 503 else 402
    case _ => 503
  }

  function LogRequest(cfg: Config, d: Decision, env: Env): Request {
    Request(cfg.rkey, MapDecision(d.verdict), d.binding, env.stamp)
  }

  /** One step of one request. */
  function Advance(cfg: Config, sh: Shared, req: Req, pc: PC, env: Env): (Shared, PC) {
    match pc
    case Arrived => (sh, match req.token case None => Unauthorized case Some(tok) => Parsed(tok))
    case Parsed(tok) =>
      (sh, match ComputeBinding(cfg.c.hash, cfg.al, req.pr, tok.nonce)
           case Err(_) => Denying(Decision(DenyViolation, Zero()))
           case Ok(b) => Bound(tok, b))
    case Bound(tok, b) =>
      (sh, if Expired(tok, env.now) then Denying(Decision(DenyViolation, b)) else Fresh(tok, b))
    case Fresh(tok, b) =>
      (sh, match env.policy
           case Permitted => Cleared(tok, b)
           case Violation => Denying(Decision(DenyViolation, b))
           case Outage => Denying(Decision(DenyUnavailable, b)))
    case Cleared(tok, b) =>
      (match SpendOn(sh.spent, env.storeUp, tok.nonce)
       case (Spent, spent') => (sh.(spent := spent'), Granted(tok, b))
       case (Replay, _) => (sh, Denying(Decision(DenyViolation, b)))
       case (Down, _) => (sh, Denying(Decision(DenyUnavailable, b))))
    case Granted(tok, b) =>
      if env.emitOk
      then (sh.(receipts := sh.receipts + [ReceiptFor(Decision(Allow, b))]), Receipted(tok, b, |sh.receipts|, |sh.log|))
      else (sh, EmitFailed(tok, b))
    case Receipted(tok, b, j, at) =>
      (match NextEntry(cfg.c, cfg.pub, sh.log, LogRequest(cfg, Decision(Allow, b), env))
       case None => (sh, AppendFailed(tok, b, j))
       case Some(e) => (sh.(log := sh.log + [e]), Logged(tok, b, j, at, |sh.log|)))
    case Logged(tok, b, j, at, i) => (sh, Served(tok, b, j, at, i))
    case Denying(d) =>
      if env.emitOk then (sh.(receipts := sh.receipts + [ReceiptFor(d)]), DenyReceipted(d, Some(|sh.receipts|)))
      else (sh, DenyReceipted(d, None))
    case DenyReceipted(d, j) =>
      (match NextEntry(cfg.c, cfg.pub, sh.log, LogRequest(cfg, d, env))
       case None => (sh, DenyLogged(d, j, None))
       case Some(e) => (sh.(log := sh.log + [e]), DenyLogged(d, j, Some(|sh.log|))))
    case DenyLogged(d, j, i) => (sh, Denied(d, j, i))
    case _ => (sh, pc)
  }

  // ----- whole runs

  datatype State = State(shared: Shared, pcs: map<Rid, PC>)

  type Schedule = seq<(Rid, Env)>

  function Step(cfg: Config, reqs: map<Rid, Req>, s: State, rid: Rid, env: Env): State {
    if rid !in reqs || rid !in s.pcs then s
    else
      var (sh, pc) := Advance(cfg, s.shared, reqs[rid], s.pcs[rid], env);
      State(sh, s.pcs[rid := pc])
  }

  function Exec(cfg: Config, reqs: map<Rid, Req>, s: State, sch: Schedule): State
    decreases |sch|
  {
    if sch == [] then s else Exec(cfg, reqs, Step(cfg, reqs, s, sch[0].0, sch[0].1), sch[1..])
  }

  /** Every request newly arrived, any nonces already spent, the log sound. */
  ghost predicate Initial(cfg: Config, reqs: map<Rid, Req>, s: State) {
    && s.pcs.Keys == reqs.Keys
    && (forall r :: r in s.pcs ==> s.pcs[r].Arrived?)
    && Sound(cfg.c, cfg.pub, s.shared.log)
  }

  // ----- one request alone, and the object

  /** Steps left at most. */
  function Rank(pc: PC): nat {
    match pc
    case Arrived => 9
    case Parsed(_) => 8
    case Bound(_, _) => 7
    case Fresh(_, _) => 6
    case Cleared(_, _) => 5
    case Granted(_, _) => 3
    case Receipted(_, _, _, _) => 2
    case Logged(_, _, _, _, _) => 1
    case Denying(_) => 3
    case DenyReceipted(_, _) => 2
    case DenyLogged(_, _, _) => 1
    case _ => 0
  }

  /** Every step of an unanswered request brings it closer to an answer; an answer is final. */
  lemma AdvanceProgresses(cfg: Config, sh: Shared, req: Req, pc: PC, env: Env)
    ensures Answered(pc) <==> Rank(pc) == 0
    ensures !Answered(pc) ==> Rank(Advance(cfg, sh, req, pc, env).1) < Rank(pc)
    ensures Answered(pc) ==> Advance(cfg, sh, req, pc, env) == (sh, pc)
  {
    hide ComputeBinding, Append;
  }

  /** The request run to its answer with nobody interleaving. */
  function Finish(cfg: Config, sh: Shared, req: Req, pc: PC, env: Env): (Shared, PC)
    decreases Rank(pc)
  {
    AdvanceProgresses(cfg, sh, req, pc, env);
    if Answered(pc) then (sh, pc)
    else
      var (sh', pc') := Advance(cfg, sh, req, pc, env);
      Finish(cfg, sh', req, pc', env)
  }
}
