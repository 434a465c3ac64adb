/** Every decision of the HTTP enforcement point, however requests interleave, is the gate's (gateway/pep.go). */
module PepDecisions {
  import opened Bytes
  import opened TransLog
  import opened Binding
  import opened Gate
  import opened Pep
  import opened PepRuns
  import opened PepEvidence

  // The three points at which a request looks at its surroundings before it is decided.

  predicate AtFreshness(pc: PC) { pc.Bound? }

  predicate AtPolicy(pc: PC) { pc.Fresh? }

  predicate AtSpend(pc: PC) { pc.Cleared? }

  /** The moves request rid makes at a point of this kind are the given one, or none. */
  ghost predicate OnlyMove(cfg: Config, reqs: map<Rid, Req>, s: State, sch: Schedule, rid: Rid, kind: PC -> bool,
                           step: Option<nat>)
  {
    forall k: nat :: MovesAt(cfg, reqs, s, sch, rid, kind, k) <==> step == Some(k)
  }

  // What such a move finds; the defaults stand for a move not made.

  function NowAt(sch: Schedule, step: Option<nat>): int {
    if step.Some? && step.value < |sch| then sch[step.value].1.now else 0
  }

  function PolicyAt(sch: Schedule, step: Option<nat>): Policy {
    if step.Some? && step.value < |sch| then sch[step.value].1.policy else Permitted
  }

  function UpAt(sch: Schedule, step: Option<nat>): bool {
    step.Some? && step.value < |sch| && sch[step.value].1.storeUp
  }

  function SpentAt(cfg: Config, reqs: map<Rid, Req>, s: State, sch: Schedule, step: Option<nat>): set<Digest> {
    if step.Some? && step.value < |sch| then Found(cfg, reqs, s, sch, step.value).shared.spent else {}
  }

  predicate FreshAt(tok: Token, now: int) {
    tok.expiry.None? || now <= tok.expiry.value
  }

  /** The answers a request has got from its surroundings. */
  datatype Answers = Answers(now: Option<int>, policy: Option<Policy>, spend: Option<(bool, set<Digest>)>)

  function AnswersOf(cfg: Config, reqs: map<Rid, Req>, s: State, sch: Schedule,
                     check: Option<nat>, policy: Option<nat>, spend: Option<nat>): Answers
  {
    Answers(if check.Some? then Some(NowAt(sch, check)) else None,
            if policy.Some? then Some(PolicyAt(sch, policy)) else None,
            if spend.Some? then Some((UpAt(sch, spend), SpentAt(cfg, reqs, s, sch, spend))) else None)
  }

  /** Where answers lead: exactly the ones asked for so far, and the gate's decision once no more are needed. */
  predicate Leads(cfg: Config, req: Req, a: Answers, pc: PC) {
    if pc.Arrived? || pc.Unauthorized? then a == Answers(None, None, None)
    else
      && req.token.Some?
      && var tok := req.token.value;
         var bound := ComputeBinding(cfg.c.hash, cfg.al, req.pr, tok.nonce);
         && (pc.Parsed? ==> pc.tok == tok && a == Answers(None, None, None))
         && (pc.Bound? || pc.Fresh? || pc.Cleared? ==> pc.tok == tok && bound == Ok(pc.b))
         && (pc.Bound? ==> a == Answers(None, None, None))
         && (pc.Fresh? ==> a.now.Some? && FreshAt(tok, a.now.value) && a.policy.None? && a.spend.None?)
         && (pc.Cleared? ==> a.now.Some? && FreshAt(tok, a.now.value) && a.policy == Some(Permitted) && a.spend.None?)
         && (DecisionOf(pc).Some? ==> Decided(cfg, req, a, DecisionOf(pc).value))
  }

  /** d is the gate's decision on these answers, and none of them was asked for without need. */
  predicate Decided(cfg: Config, req: Req, a: Answers, d: Decision) {
    && req.token.Some?
    && var tok := req.token.value;
       var now := if a.now.Some? then a.now.value else 0;
       var policy := if a.policy.Some? then a.policy.value else Permitted;
       var (up, spent) := if a.spend.Some? then a.spend.value else (false, {});
       && d == Evaluate(cfg.c.hash, cfg.al, req.pr, tok, policy, spent, up, now).0
       && (a.now.Some? <==> ComputeBinding(cfg.c.hash, cfg.al, req.pr, tok.nonce).Ok?)
       && (a.policy.Some? <==> a.now.Some? && FreshAt(tok, now))
       && (a.spend.Some? <==> a.policy.Some? && policy.Permitted?)
  }

  /** The answers after a step: one more if it asks. */
  function More(a: Answers, pc: PC, env: Env, spent: set<Digest>): Answers {
    if AtFreshness(pc) then a.(now := Some(env.now))
    else if AtPolicy(pc) then a.(policy := Some(env.policy))
    else if AtSpend(pc) then a.(spend := Some((env.storeUp, spent)))
    else a
  }

  lemma ParsingLeads(cfg: Config, sh: Shared, req: Req, pc: PC, env: Env, a: Answers)
    requires Leads(cfg, req, a, pc) && (pc.Arrived? || pc.Parsed?)
    ensures Leads(cfg, req, a, Advance(cfg, sh, req, pc, env).1)
  {
    hide ComputeBinding, NextEntry, SpendOn, Zero;
  }

  lemma FreshnessLeads(cfg: Config, sh: Shared, req: Req, pc: PC, env: Env, a: Answers)
    requires Leads(cfg, req, a, pc) && AtFreshness(pc)
    ensures Leads(cfg, req, a.(now := Some(env.now)), Advance(cfg, sh, req, pc, env).1)
  {
    hide ComputeBinding, NextEntry, SpendOn, Zero;
  }

  lemma PolicyLeads(cfg: Config, sh: Shared, req: Req, pc: PC, env: Env, a: Answers)
    requires Leads(cfg, req, a, pc) && AtPolicy(pc)
    ensures Leads(cfg, req, a.(policy := Some(env.policy)), Advance(cfg, sh, req, pc, env).1)
  {
    hide ComputeBinding, NextEntry, SpendOn, Zero;
  }

  lemma SpendLeads(cfg: Config, sh: Shared, req: Req, pc: PC, env: Env, a: Answers)
    requires Leads(cfg, req, a, pc) && AtSpend(pc)
    ensures Leads(cfg, req, a.(spend := Some((env.storeUp, sh.spent))), Advance(cfg, sh, req, pc, env).1)
  {
    hide ComputeBinding, NextEntry, Zero;
  }

  lemma DecidedLeads(cfg: Config, sh: Shared, req: Req, pc: PC, env: Env, a: Answers)
    requires Leads(cfg, req, a, pc) && (DecisionOf(pc).Some? || pc.Unauthorized?)
    ensures Leads(cfg, req, a, Advance(cfg, sh, req, pc, env).1)
  {
    hide ComputeBinding, NextEntry, Decided;
    PastPerStep(cfg, sh, req, pc, env);
  }

  /** One step: the answer it gets, if it asks, leads on from those before. */
  lemma LeadsOn(cfg: Config, sh: Shared, req: Req, pc: PC, env: Env, a: Answers)
    requires Leads(cfg, req, a, pc)
    ensures Leads(cfg, req, More(a, pc, env, sh.spent), Advance(cfg, sh, req, pc, env).1)
    ensures AtFreshness(pc) ==> a.now.None? && a.policy.None? && a.spend.None?
    ensures AtPolicy(pc) ==> a.now.Some? && a.policy.None? && a.spend.None?
    ensures AtSpend(pc) ==> a.policy.Some? && a.spend.None?
  {
    hide Advance, Decided, ComputeBinding;
    if pc.Arrived? || pc.Parsed? {
      ParsingLeads(cfg, sh, req, pc, env, a);
    } else if AtFreshness(pc) {
      FreshnessLeads(cfg, sh, req, pc, env, a);
    } else if AtPolicy(pc) {
      PolicyLeads(cfg, sh, req, pc, env, a);
    } else if AtSpend(pc) {
      SpendLeads(cfg, sh, req, pc, env, a);
    } else {
      DecidedLeads(cfg, sh, req, pc, env, a);
    }
  }

  ghost predicate Explained(cfg: Config, reqs: map<Rid, Req>, s: State, sch: Schedule, rid: Rid,
                            check: Option<nat>, policy: Option<nat>, spend: Option<nat>)
    requires rid in reqs
  {
    && OnlyMove(cfg, reqs, s, sch, rid, AtFreshness, check)
    && OnlyMove(cfg, reqs, s, sch, rid, AtPolicy, policy)
    && OnlyMove(cfg, reqs, s, sch, rid, AtSpend, spend)
    && (policy.Some? ==> check.Some? && check.value < policy.value)
    && (spend.Some? ==> policy.Some? && policy.value < spend.value)
    && rid in Exec(cfg, reqs, s, sch).pcs
    && Leads(cfg, reqs[rid], AnswersOf(cfg, reqs, s, sch, check, policy, spend), Exec(cfg, reqs, s, sch).pcs[rid])
  }

  /** Earlier moves, and what they find, do not depend on what comes last. */
  lemma SameAnswers(cfg: Config, reqs: map<Rid, Req>, s: State, sch: Schedule, step: Option<nat>)
    requires sch != [] && (step.Some? ==> step.value < |sch| - 1)
    ensures var init := sch[..|sch| - 1];
            && NowAt(init, step) == NowAt(sch, step) && PolicyAt(init, step) == PolicyAt(sch, step)
            && UpAt(init, step) == UpAt(sch, step)
            && SpentAt(cfg, reqs, s, init, step) == SpentAt(cfg, reqs, s, sch, step)
  {
    hide Exec;
    if step.Some? {
      assert sch[..|sch| - 1][..step.value] == sch[..step.value];
    }
  }

  lemma OnlyMoveMore(cfg: Config, reqs: map<Rid, Req>, s: State, sch: Schedule, rid: Rid, kind: PC -> bool,
                     step: Option<nat>) returns (step': Option<nat>)
    requires sch != [] && OnlyMove(cfg, reqs, s, sch[..|sch| - 1], rid, kind, step)
    requires var n := |sch| - 1; MovesAt(cfg, reqs, s, sch, rid, kind, n) ==> step.None?
    ensures OnlyMove(cfg, reqs, s, sch, rid, kind, step')
    ensures step' == if MovesAt(cfg, reqs, s, sch, rid, kind, |sch| - 1) then Some(|sch| - 1) else step
    ensures step.Some? ==> step.value < |sch| - 1
  {
    hide Exec;
    var n := |sch| - 1;
    forall k: nat | k < n
      ensures MovesAt(cfg, reqs, s, sch[..n], rid, kind, k) <==> MovesAt(cfg, reqs, s, sch, rid, kind, k)
    {
      assert sch[..n][..k] == sch[..k];
    }
    if step.Some? {
      assert MovesAt(cfg, reqs, s, sch[..n], rid, kind, step.value);
    }
    step' := if MovesAt(cfg, reqs, s, sch, rid, kind, n) then Some(n) else step;
  }

  lemma {:induction false} RunExplained(cfg: Config, reqs: map<Rid, Req>, s: State, sch: Schedule, rid: Rid)
    returns (check: Option<nat>, policy: Option<nat>, spend: Option<nat>)
    requires rid in reqs && rid in s.pcs && s.pcs[rid].Arrived?
    ensures Explained(cfg, reqs, s, sch, rid, check, policy, spend)
    decreases |sch|
  {
    hide Exec, Advance, Leads;
    if sch == [] {
      assert Exec(cfg, reqs, s, sch) == s by { ExecNothing(cfg, reqs, s, sch); }
      check, policy, spend := None, None, None;
      assert Leads(cfg, reqs[rid], Answers(None, None, None), s.pcs[rid]) by { ArrivedLeads(cfg, reqs[rid]); }
    } else {
      var n := |sch| - 1;
      var f, p, t := RunExplained(cfg, reqs, s, sch[..n], rid);
      var before := Exec(cfg, reqs, s, sch[..n]);
      var pc := before.pcs[rid];
      ExecLast(cfg, reqs, s, sch);
      LeadsOn(cfg, before.shared, reqs[rid], pc, sch[n].1, AnswersOf(cfg, reqs, s, sch[..n], f, p, t));
      check := OnlyMoveMore(cfg, reqs, s, sch, rid, AtFreshness, f);
      policy := OnlyMoveMore(cfg, reqs, s, sch, rid, AtPolicy, p);
      spend := OnlyMoveMore(cfg, reqs, s, sch, rid, AtSpend, t);
      SameAnswers(cfg, reqs, s, sch, f);
      SameAnswers(cfg, reqs, s, sch, p);
      SameAnswers(cfg, reqs, s, sch, t);
    }
  }

  lemma ArrivedLeads(cfg: Config, req: Req)
    ensures Leads(cfg, req, Answers(None, None, None), Arrived)
  {
  }

  /**
   However requests interleave, a decided request asked the time at most once, the policy at most once
   and only later, the spend log at most once and only later still, each exactly when the answers
   before left the decision open; and its decision is the gate's on the answers it got. So other
   requests matter to it only through the nonces already spent at its own spend step.
   */
  lemma DecisionInEveryRun(cfg: Config, reqs: map<Rid, Req>, s: State, sch: Schedule, rid: Rid)
    returns (check: Option<nat>, policy: Option<nat>, spend: Option<nat>)
    requires Initial(cfg, reqs, s) && rid in reqs && rid in Exec(cfg, reqs, s, sch).pcs
    requires DecisionOf(Exec(cfg, reqs, s, sch).pcs[rid]).Some?
    ensures OnlyMove(cfg, reqs, s, sch, rid, AtFreshness, check)
    ensures OnlyMove(cfg, reqs, s, sch, rid, AtPolicy, policy)
    ensures OnlyMove(cfg, reqs, s, sch, rid, AtSpend, spend)
    ensures policy.Some? ==> check.Some? && check.value < policy.value
    ensures spend.Some? ==> policy.Some? && policy.value < spend.value
    ensures reqs[rid].token.Some?
    ensures var tok, pr := reqs[rid].token.value, reqs[rid].pr;
            var now, pol := NowAt(sch, check), PolicyAt(sch, policy);
            && DecisionOf(Exec(cfg, reqs, s, sch).pcs[rid]).value
               == Evaluate(cfg.c.hash, cfg.al, pr, tok, pol, SpentAt(cfg, reqs, s, sch, spend), UpAt(sch, spend), now).0
            && (check.Some? <==> ComputeBinding(cfg.c.hash, cfg.al, pr, tok.nonce).Ok?)
            && (policy.Some? <==> check.Some? && (tok.expiry.None? || now <= tok.expiry.value))
            && (spend.Some? <==> policy.Some? && pol.Permitted?)
  {
    hide Exec, Evaluate, ComputeBinding, OnlyMove, Found, Sound;
    check, policy, spend := RunExplained(cfg, reqs, s, sch, rid);
  }

  /**
   A request served in any interleaving earned it: at its own freshness step its token had not
   expired, at its own later policy step the policy permitted the payment, and at its own still
   later spend step the store answered and nobody had spent its nonce.
   */
  lemma ServedWasEarned(cfg: Config, reqs: map<Rid, Req>, s: State, sch: Schedule, rid: Rid)
    returns (check: nat, policy: nat, spend: nat)
    requires Initial(cfg, reqs, s) && rid in reqs && rid in Exec(cfg, reqs, s, sch).pcs
    requires Exec(cfg, reqs, s, sch).pcs[rid].Served?
    ensures check < policy < spend < |sch| && reqs[rid].token.Some?
    ensures sch[check].0 == sch[policy].0 == sch[spend].0 == rid
    ensures var tok := reqs[rid].token.value;
            && (tok.expiry.None? || sch[check].1.now <= tok.expiry.value)
            && sch[policy].1.policy.Permitted?
            && sch[spend].1.storeUp && tok.nonce !in Exec(cfg, reqs, s, sch[..spend]).shared.spent
  {
    hide Exec, Evaluate, ComputeBinding, Sound;
    var f, p, t := DecisionInEveryRun(cfg, reqs, s, sch, rid);
    var tok, pr := reqs[rid].token.value, reqs[rid].pr;
    EvaluateExactly(cfg.c.hash, cfg.al, pr, tok, PolicyAt(sch, p), SpentAt(cfg, reqs, s, sch, t), UpAt(sch, t),
                    NowAt(sch, f));
    check, policy, spend := f.value, p.value, t.value;
    assert MovesAt(cfg, reqs, s, sch, rid, AtFreshness, check);
    assert MovesAt(cfg, reqs, s, sch, rid, AtPolicy, policy);
    assert MovesAt(cfg, reqs, s, sch, rid, AtSpend, spend);
  }
}
