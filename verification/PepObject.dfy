/** The PEP object of gateway/pep.go: Wrap as the handler runs it, step after step. */
module PepObject {
  import opened Bytes
  import opened TransLog
  import opened Binding
  import opened Gate
  import opened Pep

  lemma FinishUnfolds(cfg: Config, sh: Shared, req: Req, pc: PC, env: Env)
    requires !Answered(pc)
    ensures var (sh', pc') := Advance(cfg, sh, req, pc, env);
            Finish(cfg, sh, req, pc, env) == Finish(cfg, sh', req, pc', env)
  {
  }

  class PEP {
    const cfg: Config
    const log: Log
    const spend: MemSpendLog
    /** The receipts the emitter has durably recorded. */
    var receipts: seq<Receipt>

    constructor (cfg: Config, log: Log, spend: MemSpendLog)
      ensures this.cfg == cfg && this.log == log && this.spend == spend && receipts == []
    {
      this.cfg, this.log, this.spend, this.receipts := cfg, log, spend, [];
    }

    ghost predicate Valid()
    {
      log.c == cfg.c && log.pub == cfg.pub
    }

    ghost function View(): Shared
      reads this, log, spend
    {
      Shared(spend.seen, receipts, log.entries)
    }

    method Emit(rc: Receipt, ok: bool) returns (done: bool)
      modifies this`receipts
      ensures done == ok
      ensures receipts == if ok then old(receipts) + [rc] else old(receipts)
    {
      if ok { receipts := receipts + [rc]; }
      return ok;
    }

    /** recordDeny: both artifacts best effort, failures change nothing about the denial. */
    method RecordDeny(req: Req, d: Decision, env: Env) returns (r: PC)
      requires Valid()
      modifies this`receipts, log
      ensures r.Denied? && r.d == d
      ensures Finish(cfg, old(View()), req, Denying(d), env) == (View(), r)
    {
      hide ComputeBinding, NextEntry;
      FinishUnfolds(cfg, View(), req, Denying(d), env);
      var j, i := |receipts|, |log.entries|;
      var done := Emit(ReceiptFor(d), env.emitOk);
      var mj := if done then Some(j) else None;
      FinishUnfolds(cfg, View(), req, DenyReceipted(d, mj), env);
      var e := log.AppendEntry(LogRequest(cfg, d, env));
      var mi := if e.Some? then Some(i) else None;
      FinishUnfolds(cfg, View(), req, DenyLogged(d, mj, mi), env);
      return Denied(d, mj, mi);
    }

    /** The handler after an ALLOW: receipt, then chain entry, then service; either failure is 503. */
    method ServeAllowed(req: Req, tok: Token, b: Digest, env: Env) returns (r: PC)
      requires Valid()
      modifies this`receipts, log
      ensures Finish(cfg, old(View()), req, Granted(tok, b), env) == (View(), r)
    {
      hide ComputeBinding, NextEntry;
      FinishUnfolds(cfg, View(), req, Granted(tok, b), env);
      var j, at := |receipts|, |log.entries|;
      var done := Emit(ReceiptFor(Decision(Allow, b)), env.emitOk);
      if !done {
        return EmitFailed(tok, b);
      }
      FinishUnfolds(cfg, View(), req, Receipted(tok, b, j, at), env);
      var e := log.AppendEntry(LogRequest(cfg, Decision(Allow, b), env));
      if e.None? {
        return AppendFailed(tok, b, j);
      }
      FinishUnfolds(cfg, View(), req, Logged(tok, b, j, at, at), env);
      return Served(tok, b, j, at, at);
    }

    /** Wrap's handler computes exactly the request's steps run to the end. */
    method Wrap(req: Req, env: Env) returns (r: PC)
      requires Valid()
      modifies this`receipts, log, spend
      ensures Answered(r)
      ensures Finish(cfg, old(View()), req, Arrived, env) == (View(), r)
    {
      hide ComputeBinding, NextEntry, Append;
      FinishUnfolds(cfg, View(), req, Arrived, env);
      if req.token.None? {
        return Unauthorized;
      }
      var tok := req.token.value;
      EvaluateIsSteps(cfg, View(), req, tok, env);
      var d := EvaluateWith(cfg.c.hash, cfg.al, req.pr, tok, env.policy, spend, env.storeUp, env.now);
      if d.verdict.Allow? {
        r := ServeAllowed(req, tok, d.binding, env);
        FinishAnswers(cfg, old(View()), req, Arrived, env);
      } else {
        r := RecordDeny(req, d, env);
      }
    }
  }

  lemma {:induction false} FinishAnswers(cfg: Config, sh: Shared, req: Req, pc: PC, env: Env)
    ensures Answered(Finish(cfg, sh, req, pc, env).1)
    decreases Rank(pc)
  {
    hide Advance;
    AdvanceProgresses(cfg, sh, req, pc, env);
    if Answered(pc) {
    } else {
      var (sh', pc') := Advance(cfg, sh, req, pc, env);
      FinishAnswers(cfg, sh', req, pc', env);
    }
  }

  /** The steps from a parsed token to a decision are gate.Evaluate. */
  lemma EvaluateIsSteps(cfg: Config, sh: Shared, req: Req, tok: Token, env: Env)
    ensures var (d, spent) := Evaluate(cfg.c.hash, cfg.al, req.pr, tok, env.policy, sh.spent, env.storeUp, env.now);
            Finish(cfg, sh, req, Parsed(tok), env)
            == Finish(cfg, sh.(spent := spent), req,
                      if d.verdict.Allow? then Granted(tok, d.binding) else Denying(d), env)
  {
    hide ComputeBinding, Append, NextEntry;
    FinishUnfolds(cfg, sh, req, Parsed(tok), env);
    var bound := ComputeBinding(cfg.c.hash, cfg.al, req.pr, tok.nonce);
    if bound.Ok? {
      var b := bound.value;
      FinishUnfolds(cfg, sh, req, Bound(tok, b), env);
      FinishUnfolds(cfg, sh, req, Fresh(tok, b), env);
      FinishUnfolds(cfg, sh, req, Cleared(tok, b), env);
    }
  }

  /** n moves of one request in a row. */
  function Solo(rid: Rid, env: Env, n: nat): Schedule {
    if n == 0 then [] else [(rid, env)] + Solo(rid, env, n - 1)
  }

  /** An uninterrupted Wrap is one of the interleavings. */
  lemma {:induction false} WrapIsASchedule(cfg: Config, reqs: map<Rid, Req>, s: State, rid: Rid, env: Env, n: nat)
    requires rid in reqs && rid in s.pcs && Rank(s.pcs[rid]) <= n
    ensures var (sh, pc) := Finish(cfg, s.shared, reqs[rid], s.pcs[rid], env);
            Exec(cfg, reqs, s, Solo(rid, env, n)) == State(sh, s.pcs[rid := pc])
    decreases n
  {
    hide Advance;
    AdvanceProgresses(cfg, s.shared, reqs[rid], s.pcs[rid], env);
    if n == 0 {
      assert s.pcs[rid := s.pcs[rid]] == s.pcs;
    } else {
      var s' := Step(cfg, reqs, s, rid, env);
      WrapIsASchedule(cfg, reqs, s', rid, env, n - 1);
      assert Solo(rid, env, n)[1..] == Solo(rid, env, n - 1);
      var pc := Finish(cfg, s'.shared, reqs[rid], s'.pcs[rid], env).1;
      assert s.pcs[rid := s'.pcs[rid]][rid := pc] == s.pcs[rid := pc];
      if Answered(s.pcs[rid]) {
        assert s.pcs[rid := s.pcs[rid]] == s.pcs;
      }
    }
  }
}
