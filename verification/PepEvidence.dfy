/** Which decisions leave which evidence at the HTTP enforcement point (gateway/pep.go). */
module PepEvidence {
  import opened Bytes
  import opened Maps
  import opened Record
  import opened TransLog
  import opened Binding
  import opened Gate
  import opened Pep
  import opened PepRuns
  import opened PepObject

  /** The log's key accepts the signature on the entry this decision would get. */
  predicate Verifies(cfg: Config, log: seq<Entry>, d: Decision, env: Env) {
    var r := NextRecord(cfg.c, log, LogRequest(cfg, d, env));
    VerifySig(cfg.c, cfg.pub, r, Sign(cfg.c, cfg.rkey, r))
  }

  /** At its emit step. */
  predicate Emitting(pc: PC) { pc.Granted? || pc.Denying? }

  /** At its append step. */
  predicate Appending(pc: PC) { pc.Receipted? || pc.DenyReceipted? }

  /**
   Step by step: a receipt appears exactly at an emit step that succeeds, an entry exactly at
   an append step whose signature verifies, and an ALLOW reaches its append step only with its
   receipt recorded. No other step changes a request's evidence.
   */
  lemma EvidencePerStep(cfg: Config, sh: Shared, req: Req, pc: PC, env: Env)
    ensures var pc' := Advance(cfg, sh, req, pc, env).1;
            && (Emitting(pc) ==> DecisionOf(pc).Some? && (ReceiptOf(pc').Some? <==> env.emitOk))
            && (!Emitting(pc) ==> ReceiptOf(pc') == ReceiptOf(pc))
            && (Appending(pc) ==> DecisionOf(pc).Some?
                                  && (EntryOf(pc').Some? <==> Verifies(cfg, sh.log, DecisionOf(pc).value, env)))
            && (!Appending(pc) ==> EntryOf(pc') == EntryOf(pc))
            && (pc.Receipted? ==> ReceiptOf(pc).Some?)
  {
    hide ComputeBinding, CanonicalBytes, PrevOf;
  }

  /** The entry a step appends comes last in the log and carries the decision, its binding and the time of the step. */
  lemma EntryPerStep(cfg: Config, sh: Shared, req: Req, pc: PC, env: Env)
    ensures var (sh', pc') := Advance(cfg, sh, req, pc, env);
            && sh.log <= sh'.log
            && (Appending(pc) && EntryOf(pc').Some? ==>
                  && DecisionOf(pc).Some? && DecisionOf(pc') == DecisionOf(pc)
                  && EntryOf(pc').value == |sh.log| && |sh'.log| == |sh.log| + 1
                  && Records(sh'.log, |sh.log|, DecisionOf(pc).value, env.stamp))
  {
    hide ComputeBinding, CanonicalBytes, PrevOf, MapDecision;
  }

  /** Log position i records decision d with time stamp. */
  predicate Records(log: seq<Entry>, i: nat, d: Decision, stamp: int64) {
    && i < |log|
    && log[i].record.decision == MapDecision(d.verdict)
    && log[i].record.binding == d.binding
    && log[i].record.issuedAt == stamp
  }

  /**
   What a decision leaves when its request runs to the answer undisturbed: the receipt if and
   only if Emit succeeds; the entry if and only if its signature verifies and, for an ALLOW,
   Emit had succeeded. So both exist if and only if Emit succeeds and the signature verifies.
   */
  lemma AnswerEvidenceExactly(cfg: Config, sh: Shared, req: Req, tok: Token, d: Decision, env: Env)
    ensures var start := if d.verdict.Allow? then Granted(tok, d.binding) else Denying(d);
            var pc := Finish(cfg, sh, req, start, env).1;
            && DecisionOf(pc) == Some(d)
            && (ReceiptOf(pc).Some? <==> env.emitOk)
            && (EntryOf(pc).Some? <==> Verifies(cfg, sh.log, d, env) && (d.verdict.Allow? ==> env.emitOk))
  {
    hide ComputeBinding, CanonicalBytes, PrevOf;
    if d.verdict.Allow? {
      FinishUnfolds(cfg, sh, req, Granted(tok, d.binding), env);
      if env.emitOk {
        var sh1 := sh.(receipts := sh.receipts + [ReceiptFor(d)]);
        var pc1 := Receipted(tok, d.binding, |sh.receipts|, |sh.log|);
        assert Decision(Allow, d.binding) == d;
        assert Advance(cfg, sh, req, Granted(tok, d.binding), env) == (sh1, pc1);
        FinishUnfolds(cfg, sh1, req, pc1, env);
        var (sh2, pc2) := Advance(cfg, sh1, req, pc1, env);
        if pc2.Logged? {
          FinishUnfolds(cfg, sh2, req, pc2, env);
        }
      }
    } else {
      FinishUnfolds(cfg, sh, req, Denying(d), env);
      var (sh1, pc1) := Advance(cfg, sh, req, Denying(d), env);
      FinishUnfolds(cfg, sh1, req, pc1, env);
      var (sh2, pc2) := Advance(cfg, sh1, req, pc1, env);
      FinishUnfolds(cfg, sh2, req, pc2, env);
    }
  }

  // ----- which of its own steps decide a request's evidence, in every run

  /** Past its emit step. */
  predicate Emitted(pc: PC) { DecisionOf(pc).Some? && !Emitting(pc) }

  /** Past its append step. */
  predicate AppendTried(pc: PC) {
    pc.Logged? || pc.Served? || pc.AppendFailed? || pc.DenyLogged? || pc.Denied?
  }

  /** The state that move k of the schedule finds. */
  function Found(cfg: Config, reqs: map<Rid, Req>, s: State, sch: Schedule, k: nat): State
    requires k <= |sch|
  {
    Exec(cfg, reqs, s, sch[..k])
  }

  /** Move k is made by request rid, at a point of a kind. */
  predicate MovesAt(cfg: Config, reqs: map<Rid, Req>, s: State, sch: Schedule, rid: Rid, kind: PC -> bool, k: nat) {
    && k < |sch| && sch[k].0 == rid
    && var now := Found(cfg, reqs, s, sch, k);
       rid in now.pcs && kind(now.pcs[rid])
  }

  predicate EmitsAt(cfg: Config, reqs: map<Rid, Req>, s: State, sch: Schedule, rid: Rid, k: nat) {
    MovesAt(cfg, reqs, s, sch, rid, Emitting, k)
  }

  predicate AppendsAt(cfg: Config, reqs: map<Rid, Req>, s: State, sch: Schedule, rid: Rid, k: nat) {
    MovesAt(cfg, reqs, s, sch, rid, Appending, k)
  }

  /** The signature on the request's entry verifies against the log that move k finds. */
  predicate VerifiesAt(cfg: Config, reqs: map<Rid, Req>, s: State, sch: Schedule, rid: Rid, k: nat) {
    && k < |sch|
    && var now := Found(cfg, reqs, s, sch, k);
       && rid in now.pcs && DecisionOf(now.pcs[rid]).Some?
       && Verifies(cfg, now.shared.log, DecisionOf(now.pcs[rid]).value, sch[k].1)
  }

  lemma {:induction false} ExecLast(cfg: Config, reqs: map<Rid, Req>, s: State, sch: Schedule)
    requires sch != []
    ensures var n := |sch| - 1;
            Exec(cfg, reqs, s, sch) == Step(cfg, reqs, Exec(cfg, reqs, s, sch[..n]), sch[n].0, sch[n].1)
    decreases |sch|
  {
    hide Step;
    var n := |sch| - 1;
    if n == 0 {
      assert sch[1..] == [];
    } else {
      var s' := Step(cfg, reqs, s, sch[0].0, sch[0].1);
      ExecLast(cfg, reqs, s', sch[1..]);
      assert sch[1..][..n - 1] == sch[..n][1..];
    }
  }

  /** Earlier moves find the same states whatever comes last. */
  lemma SameMoves(cfg: Config, reqs: map<Rid, Req>, s: State, sch: Schedule, rid: Rid, k: nat)
    requires k + 1 < |sch|
    ensures var init := sch[..|sch| - 1];
            && (EmitsAt(cfg, reqs, s, init, rid, k) <==> EmitsAt(cfg, reqs, s, sch, rid, k))
            && (AppendsAt(cfg, reqs, s, init, rid, k) <==> AppendsAt(cfg, reqs, s, sch, rid, k))
            && (VerifiesAt(cfg, reqs, s, init, rid, k) <==> VerifiesAt(cfg, reqs, s, sch, rid, k))
  {
    hide Exec, Verifies, DecisionOf;
    assert sch[..|sch| - 1][..k] == sch[..k];
  }

  /** Where a request stands tells which of its steps are behind it and how they went. */
  ghost predicate Explains(cfg: Config, reqs: map<Rid, Req>, s: State, sch: Schedule, rid: Rid,
                           emit: Option<nat>, append: Option<nat>)
  {
    var s' := Exec(cfg, reqs, s, sch);
    && rid in s'.pcs
    && (forall k: nat :: EmitsAt(cfg, reqs, s, sch, rid, k) <==> emit == Some(k))
    && (forall k: nat :: AppendsAt(cfg, reqs, s, sch, rid, k) <==> append == Some(k))
    && (emit.Some? <==> Emitted(s'.pcs[rid]))
    && (append.Some? <==> AppendTried(s'.pcs[rid]))
    && (append.Some? ==> emit.Some? && emit.value < append.value)
    && (ReceiptOf(s'.pcs[rid]).Some? <==> emit.Some? && emit.value < |sch| && sch[emit.value].1.emitOk)
    && (EntryOf(s'.pcs[rid]).Some? <==> append.Some? && VerifiesAt(cfg, reqs, s, sch, rid, append.value))
  }

  lemma {:induction false} RunExplains(cfg: Config, reqs: map<Rid, Req>, s: State, sch: Schedule, rid: Rid)
    returns (emit: Option<nat>, append: Option<nat>)
    requires rid in reqs && rid in s.pcs && s.pcs[rid].Arrived?
    ensures Explains(cfg, reqs, s, sch, rid, emit, append)
    decreases |sch|
  {
    hide Exec, Advance, Verifies;
    if sch == [] {
      assert Exec(cfg, reqs, s, sch) == s by { ExecNothing(cfg, reqs, s, sch); }
      emit, append := None, None;
    } else {
      var n := |sch| - 1;
      emit, append := RunExplains(cfg, reqs, s, sch[..n], rid);
      var before := Exec(cfg, reqs, s, sch[..n]);
      ExecLast(cfg, reqs, s, sch);
      forall k: nat | k < n
        ensures EmitsAt(cfg, reqs, s, sch[..n], rid, k) <==> EmitsAt(cfg, reqs, s, sch, rid, k)
        ensures AppendsAt(cfg, reqs, s, sch[..n], rid, k) <==> AppendsAt(cfg, reqs, s, sch, rid, k)
        ensures VerifiesAt(cfg, reqs, s, sch[..n], rid, k) <==> VerifiesAt(cfg, reqs, s, sch, rid, k)
      {
        SameMoves(cfg, reqs, s, sch, rid, k);
      }
      if sch[n].0 == rid {
        EvidencePerStep(cfg, before.shared, reqs[rid], before.pcs[rid], sch[n].1);
        PastPerStep(cfg, before.shared, reqs[rid], before.pcs[rid], sch[n].1);
        if Emitting(before.pcs[rid]) { emit := Some(n); }
        if Appending(before.pcs[rid]) { append := Some(n); }
      }
    }
  }

  lemma ExecNothing(cfg: Config, reqs: map<Rid, Req>, s: State, sch: Schedule)
    requires sch == []
    ensures Exec(cfg, reqs, s, sch) == s
  {
  }

  /** A request's entry, if it has one, was appended by move k of its own and carries the time of that move. */
  ghost predicate TimedBy(cfg: Config, reqs: map<Rid, Req>, s: State, sch: Schedule, rid: Rid, k: nat) {
    var s' := Exec(cfg, reqs, s, sch);
    && rid in s'.pcs
    && (EntryOf(s'.pcs[rid]).Some? ==>
          && AppendsAt(cfg, reqs, s, sch, rid, k) && k < |sch| && DecisionOf(s'.pcs[rid]).Some?
          && Records(s'.shared.log, EntryOf(s'.pcs[rid]).value, DecisionOf(s'.pcs[rid]).value, sch[k].1.stamp))
  }

  lemma {:induction false} RunTimed(cfg: Config, reqs: map<Rid, Req>, s: State, sch: Schedule, rid: Rid)
    returns (k: nat)
    requires rid in reqs && rid in s.pcs && s.pcs[rid].Arrived?
    ensures TimedBy(cfg, reqs, s, sch, rid, k)
    decreases |sch|
  {
    hide Exec, Advance, VerifiesAt, EmitsAt;
    if sch == [] {
      assert Exec(cfg, reqs, s, sch) == s by { ExecNothing(cfg, reqs, s, sch); }
      k := 0;
    } else {
      var n, mover := |sch| - 1, sch[|sch| - 1].0;
      k := RunTimed(cfg, reqs, s, sch[..n], rid);
      var before := Exec(cfg, reqs, s, sch[..n]);
      ExecLast(cfg, reqs, s, sch);
      if k < n {
        SameMoves(cfg, reqs, s, sch, rid, k);
      }
      if mover in reqs && mover in before.pcs {
        EntryPerStep(cfg, before.shared, reqs[mover], before.pcs[mover], sch[n].1);
      }
      if mover == rid {
        EvidencePerStep(cfg, before.shared, reqs[rid], before.pcs[rid], sch[n].1);
        PastPerStep(cfg, before.shared, reqs[rid], before.pcs[rid], sch[n].1);
        if Appending(before.pcs[rid]) { k := n; }
      }
    }
  }

  lemma PastPerStep(cfg: Config, sh: Shared, req: Req, pc: PC, env: Env)
    ensures var pc' := Advance(cfg, sh, req, pc, env).1;
            && (Emitted(pc') <==> Emitted(pc) || Emitting(pc))
            && (AppendTried(pc') <==> AppendTried(pc) || Appending(pc))
    ensures DecisionOf(pc).Some? ==> DecisionOf(Advance(cfg, sh, req, pc, env).1) == DecisionOf(pc)
    ensures EntryOf(pc).Some? ==> DecisionOf(pc).Some? && !Appending(pc)
    ensures Emitting(pc) ==> !Emitted(pc) && ReceiptOf(pc).None?
    ensures Appending(pc) ==> Emitted(pc) && !AppendTried(pc) && EntryOf(pc).None?
  {
    hide ComputeBinding, NextEntry;
  }

  /**
   In every interleaving, a request answered with a decision made exactly one emit step, and has
   its receipt if and only if that step succeeded. It made an append step, later and only one,
   unless it was an ALLOW without receipt; and it has its entry if and only if it made that step
   and the signature verified against the log the step found.
   */
  lemma EvidenceInEveryRun(cfg: Config, reqs: map<Rid, Req>, s: State, sch: Schedule, rid: Rid)
    returns (emit: nat, append: Option<nat>)
    requires Initial(cfg, reqs, s) && rid in reqs && rid in Exec(cfg, reqs, s, sch).pcs
    requires Answered(Exec(cfg, reqs, s, sch).pcs[rid]) && DecisionOf(Exec(cfg, reqs, s, sch).pcs[rid]).Some?
    ensures emit < |sch| && (forall k: nat :: EmitsAt(cfg, reqs, s, sch, rid, k) <==> k == emit)
    ensures forall k: nat :: AppendsAt(cfg, reqs, s, sch, rid, k) <==> append == Some(k)
    ensures append.Some? ==> emit < append.value
    ensures var pc := Exec(cfg, reqs, s, sch).pcs[rid];
            && (ReceiptOf(pc).Some? <==> sch[emit].1.emitOk)
            && (append.Some? <==> (DecisionOf(pc).value.verdict.Allow? ==> sch[emit].1.emitOk))
            && (EntryOf(pc).Some? <==> append.Some? && VerifiesAt(cfg, reqs, s, sch, rid, append.value))
            && (EntryOf(pc).Some? ==>
                  && append.value < |sch|
                  && Records(Exec(cfg, reqs, s, sch).shared.log, EntryOf(pc).value, DecisionOf(pc).value,
                             sch[append.value].1.stamp))
  {
    hide Exec, Sound, NoncesMatch, EntriesMatch, ReceiptsMatch, HasEntry, HasReceipt, Binds;
    hide VerifiesAt, AppendsAt, Records;
    ReachableInv(cfg, reqs, s, sch);
    var emitted: Option<nat>;
    emitted, append := RunExplains(cfg, reqs, s, sch, rid);
    var k := RunTimed(cfg, reqs, s, sch, rid);
    emit := emitted.value;
    assert EmitsAt(cfg, reqs, s, sch, rid, emit);
    assert Local(cfg, Exec(cfg, reqs, s, sch).shared, |s.shared.log|, reqs[rid], Exec(cfg, reqs, s, sch).pcs[rid]);
  }

  // ----- runs without evidence failures

  ghost predicate EmitsAll(sch: Schedule) {
    forall k :: 0 <= k < |sch| ==> sch[k].1.emitOk
  }

  /** Nothing this request should have recorded by now is missing. */
  predicate Complete(pc: PC) {
    && !pc.EmitFailed? && !pc.AppendFailed?
    && (pc.DenyReceipted? || pc.DenyLogged? || pc.Denied? ==> ReceiptOf(pc).Some?)
    && (pc.DenyLogged? || pc.Denied? ==> EntryOf(pc).Some?)
  }

  lemma KeysVerify(cfg: Config, log: seq<Entry>, d: Decision, env: Env)
    requires KeyPair(cfg.c, cfg.rkey, cfg.pub)
    ensures Verifies(cfg, log, d, env)
  {
    hide CanonicalBytes, PrevOf;
  }

  lemma AdvanceComplete(cfg: Config, sh: Shared, req: Req, pc: PC, env: Env)
    requires KeyPair(cfg.c, cfg.rkey, cfg.pub) && env.emitOk && Complete(pc)
    ensures Complete(Advance(cfg, sh, req, pc, env).1)
  {
    hide ComputeBinding, Verifies, KeyPair, NextEntry;
    EvidencePerStep(cfg, sh, req, pc, env);
    if Appending(pc) {
      KeysVerify(cfg, sh.log, DecisionOf(pc).value, env);
    }
  }

  lemma {:induction false} RunComplete(cfg: Config, reqs: map<Rid, Req>, s: State, sch: Schedule)
    requires KeyPair(cfg.c, cfg.rkey, cfg.pub) && EmitsAll(sch)
    requires forall r :: r in s.pcs ==> Complete(s.pcs[r])
    ensures forall r :: r in Exec(cfg, reqs, s, sch).pcs ==> Complete(Exec(cfg, reqs, s, sch).pcs[r])
    decreases |sch|
  {
    hide Complete, Advance, KeyPair;
    if sch == [] {
    } else {
      var rid, env := sch[0].0, sch[0].1;
      if rid in reqs && rid in s.pcs {
        AdvanceComplete(cfg, s.shared, reqs[rid], s.pcs[rid], env);
      }
      RunComplete(cfg, reqs, Step(cfg, reqs, s, rid, env), sch[1..]);
    }
  }

  /** Answered with a decision. */
  function AnsweredIn(s: State): set<Rid> {
    set r | r in s.pcs && Answered(s.pcs[r]) && DecisionOf(s.pcs[r]).Some?
  }

  /** Appended, and not yet answered. */
  function AnsweringIn(s: State): set<Rid> {
    set r | r in s.pcs && (s.pcs[r].Logged? || s.pcs[r].DenyLogged?)
  }

  /**
   With a matching key and no Emit failure, in every interleaving every answered decision,
   denials included, has its receipt and its entry, and the log has gained one entry for each
   of them and for each request just about to be answered.
   */
  lemma NoFailureLeavesBoth(cfg: Config, reqs: map<Rid, Req>, s: State, sch: Schedule)
    requires Initial(cfg, reqs, s) && KeyPair(cfg.c, cfg.rkey, cfg.pub) && EmitsAll(sch)
    ensures var s' := Exec(cfg, reqs, s, sch);
            && (forall r :: r in s'.pcs ==> !s'.pcs[r].EmitFailed? && !s'.pcs[r].AppendFailed?)
            && (forall r :: r in AnsweredIn(s') ==> ReceiptOf(s'.pcs[r]).Some? && EntryOf(s'.pcs[r]).Some?)
            && |s'.shared.log| == |s.shared.log| + |AnsweredIn(s')| + |AnsweringIn(s')|
  {
    hide Exec, KeyPair, OneToOne, EvidenceMatches, Sound, EntryBy, ReceiptBy, Positions;
    RunComplete(cfg, reqs, s, sch);
    EvidenceIsDecisions(cfg, reqs, s, sch);
    CompleteOwners(Exec(cfg, reqs, s, sch));
  }

  lemma CompleteOwners(s: State)
    requires forall r :: r in s.pcs ==> Complete(s.pcs[r])
    ensures |EntryBy(s).Keys| == |AnsweredIn(s)| + |AnsweringIn(s)|
    ensures forall r :: r in AnsweredIn(s) ==> ReceiptOf(s.pcs[r]).Some? && EntryOf(s.pcs[r]).Some?
  {
    assert EntryBy(s).Keys == AnsweredIn(s) + AnsweringIn(s);
    assert AnsweredIn(s) !! AnsweringIn(s);
  }

  /** Once every request is answered, the log has gained one entry for each request that presented a token. */
  lemma OneEntryPerToken(cfg: Config, reqs: map<Rid, Req>, s: State, sch: Schedule)
    requires Initial(cfg, reqs, s) && KeyPair(cfg.c, cfg.rkey, cfg.pub) && EmitsAll(sch)
    requires var s' := Exec(cfg, reqs, s, sch); forall r :: r in s'.pcs ==> Answered(s'.pcs[r])
    ensures |Exec(cfg, reqs, s, sch).shared.log| == |s.shared.log| + |(set r | r in reqs && reqs[r].token.Some?)|
  {
    hide Exec, KeyPair, Sound, NoncesMatch, EntriesMatch, ReceiptsMatch, Local, Positions;
    hide EntryBy, ReceiptBy, SpentBy, EntryOf, ReceiptOf;
    NoFailureLeavesBoth(cfg, reqs, s, sch);
    var s' := Exec(cfg, reqs, s, sch);
    forall r | r in reqs ensures r in s'.pcs && (r in AnsweredIn(s') <==> reqs[r].token.Some?) {
      StatusMeans(cfg, reqs, s, sch, r);
    }
    ReachableInv(cfg, reqs, s, sch);
    assert AnsweredIn(s') == set r | r in reqs && reqs[r].token.Some?;
    assert AnsweringIn(s') == {};
  }

  // ----- a decision without evidence

  /** Key [1] signs for the log; every other key's signatures are refused. */
  function OneGoodKey(): Crypto {
    Crypto((x: seq<byte>) => Zero(),
           (k: Key, msg: seq<byte>) => if k == [1] then [1] else [],
           (p: Key, msg: seq<byte>, sig: seq<byte>) => sig == [1])
  }

  /**
   A denial can leave nothing at all: the log's key is good, the enforcement point was given
   another one, Emit fails, and the request is answered with neither receipt nor entry.
   */
  lemma DenialWithoutEvidence() returns (cfg: Config, reqs: map<Rid, Req>, s: State, sch: Schedule)
    ensures Initial(cfg, reqs, s) && KeyPair(cfg.c, [1], cfg.pub)
    ensures var s' := Exec(cfg, reqs, s, sch);
            && 0 in s'.pcs && s'.pcs[0] == Denied(Decision(DenyViolation, Zero()), None, None)
            && s'.shared == s.shared
  {
    hide Finish, Exec, Solo, CanonicalBytes, PrevOf, Zero;
    cfg := Config(OneGoodKey(), Allowlist(map[], map[]), [], []);
    var tok := Token(Zero(), None);
    var req := Req(Some(tok), Requirements([], [], [], [], [], []));
    var env := Env(Permitted, true, false, 0, 0);
    reqs := map[0 := req];
    s := State(Shared({}, [], []), map[0 := Arrived]);
    sch := Solo(0, env, 9);
    WrapIsASchedule(cfg, reqs, s, 0, env, 9);
    DenialLosesBoth(cfg, s.shared, req, tok, env);
  }

  /** Every malformed payment is denied without evidence when Emit fails and the signature does not verify. */
  lemma DenialLosesBoth(cfg: Config, sh: Shared, req: Req, tok: Token, env: Env)
    requires req.token == Some(tok) && ComputeBinding(cfg.c.hash, cfg.al, req.pr, tok.nonce).Err?
    requires !env.emitOk && !Verifies(cfg, sh.log, Decision(DenyViolation, Zero()), env)
    ensures Finish(cfg, sh, req, Arrived, env) == (sh, Denied(Decision(DenyViolation, Zero()), None, None))
  {
    hide ComputeBinding, CanonicalBytes, PrevOf, Zero;
    var d := Decision(DenyViolation, Zero());
    FinishUnfolds(cfg, sh, req, Arrived, env);
    FinishUnfolds(cfg, sh, req, Parsed(tok), env);
    FinishUnfolds(cfg, sh, req, Denying(d), env);
    FinishUnfolds(cfg, sh, req, DenyReceipted(d, None), env);
    FinishUnfolds(cfg, sh, req, DenyLogged(d, None, None), env);
  }
}
