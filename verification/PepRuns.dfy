/** Theorems about every interleaving of requests at the HTTP enforcement point. */
module PepRuns {
  import opened Bytes
  import opened Hashing
  import opened Record
  import opened TransLog
  import opened Binding
  import opened Gate
  import opened Maps
  import opened Pep

  /** The request got an ALLOW decision, so its nonce was spent for it. */
  predicate Spender(pc: PC) {
    pc.Granted? || pc.Receipted? || pc.Logged? || pc.Served? || pc.EmitFailed? || pc.AppendFailed?
  }

  /** The decision a request has reached. */
  function DecisionOf(pc: PC): Option<Decision> {
    if Spender(pc) then Some(Decision(Allow, pc.b))
    else if pc.Denying? || pc.DenyReceipted? || pc.DenyLogged? || pc.Denied? then Some(pc.d)
    else None
  }

  /** Its receipt, if one was recorded. */
  function ReceiptOf(pc: PC): Option<nat> {
    if pc.Receipted? || pc.Logged? || pc.Served? || pc.AppendFailed? then Some(pc.receipt)
    else if pc.DenyReceipted? || pc.DenyLogged? || pc.Denied? then pc.maybeReceipt
    else None
  }

  /** Its log entry, if one was appended. */
  function EntryOf(pc: PC): Option<nat> {
    if pc.Logged? || pc.Served? then Some(pc.entry)
    else if pc.DenyLogged? || pc.Denied? then pc.maybeEntry
    else None
  }

  predicate Binds(cfg: Config, req: Req, tok: Token, b: Digest) {
    req.token == Some(tok) && ComputeBinding(cfg.c.hash, cfg.al, req.pr, tok.nonce) == Ok(b)
  }

  predicate HasReceipt(sh: Shared, d: Decision, j: nat) {
    j < |sh.receipts| && sh.receipts[j] == ReceiptFor(d)
  }

  predicate HasEntry(sh: Shared, d: Decision, i: nat) {
    i < |sh.log| && sh.log[i].record.decision == MapDecision(d.verdict) && sh.log[i].record.binding == d.binding
  }

  /** A request's entry and receipt carry its own decision and binding. */
  predicate EvidenceMatches(sh: Shared, pc: PC) {
    && (EntryOf(pc).Some? ==> DecisionOf(pc).Some? && HasEntry(sh, DecisionOf(pc).value, EntryOf(pc).value))
    && (ReceiptOf(pc).Some? ==> DecisionOf(pc).Some? && HasReceipt(sh, DecisionOf(pc).value, ReceiptOf(pc).value))
  }

  /** What holds of one request where it is. */
  predicate Local(cfg: Config, sh: Shared, base: nat, req: Req, pc: PC) {
    && (pc.Parsed? ==> req.token == Some(pc.tok))
    && (pc.Bound? || pc.Fresh? || pc.Cleared? || Spender(pc) ==> Binds(cfg, req, pc.tok, pc.b))
    && (pc.Unauthorized? ==> req.token.None?)
    && (DecisionOf(pc).Some? ==> req.token.Some? && (DecisionOf(pc).value.verdict.Allow? <==> Spender(pc)))
    && EvidenceMatches(sh, pc)
    && (pc.Receipted? ==> base <= pc.at <= |sh.log|)
    && (pc.Logged? || pc.Served? ==> base <= pc.at <= pc.entry)
  }

  /** Which nonce each request with an ALLOW decision spent. */
  function SpentBy(s: State): map<Rid, Digest> {
    map r | r in s.pcs && Spender(s.pcs[r]) :: s.pcs[r].tok.nonce
  }

  function EntryBy(s: State): map<Rid, nat> {
    map r | r in s.pcs && EntryOf(s.pcs[r]).Some? :: EntryOf(s.pcs[r]).value
  }

  function ReceiptBy(s: State): map<Rid, nat> {
    map r | r in s.pcs && ReceiptOf(s.pcs[r]).Some? :: ReceiptOf(s.pcs[r]).value
  }

  function Positions(base: nat, end: nat): (ps: set<nat>)
    ensures forall i :: i in ps <==> base <= i < end
    ensures base <= end ==> |ps| == end - base
  {
    if end <= base then {} else Positions(base, end - 1) + {end - 1}
  }

  /** The nonces spent since are exactly those of requests with an ALLOW decision, one each. */
  ghost predicate NoncesMatch(s: State, before: set<Digest>) {
    OneToOne(SpentBy(s)) && SpentBy(s).Values !! before && s.shared.spent == before + SpentBy(s).Values
  }

  /** Log positions from base on are exactly the entries of requests, one each. */
  ghost predicate EntriesMatch(s: State, base: nat) {
    OneToOne(EntryBy(s)) && EntryBy(s).Values == Positions(base, |s.shared.log|)
  }

  /** Receipts from rbase on are exactly those of requests, one each. */
  ghost predicate ReceiptsMatch(s: State, rbase: nat) {
    OneToOne(ReceiptBy(s)) && ReceiptBy(s).Values == Positions(rbase, |s.shared.receipts|)
  }

  /** What holds in every state of a run that started from the shared state `first`. */
  ghost predicate Inv(cfg: Config, reqs: map<Rid, Req>, first: Shared, s: State) {
    && s.pcs.Keys == reqs.Keys
    && Extends(first, s.shared)
    && Sound(cfg.c, cfg.pub, s.shared.log)
    && (forall r :: r in reqs ==> Local(cfg, s.shared, |first.log|, reqs[r], s.pcs[r]))
    && NoncesMatch(s, first.spent)
    && EntriesMatch(s, |first.log|)
    && ReceiptsMatch(s, |first.receipts|)
  }

  // ----- what one step of one request does

  predicate Extends(sh: Shared, sh': Shared) {
    sh.receipts <= sh'.receipts && sh.log <= sh'.log
  }

  /** The nonce of a request enters the spend log exactly with its ALLOW decision. */
  predicate SpendsRight(sh: Shared, pc: PC, sh': Shared, pc': PC) {
    if Spender(pc) then Spender(pc') && pc'.tok == pc.tok && sh'.spent == sh.spent
    else if Spender(pc') then pc'.tok.nonce !in sh.spent && sh'.spent == sh.spent + {pc'.tok.nonce}
    else sh'.spent == sh.spent
  }

  /** A position is filled exactly when a request takes it. */
  predicate FillsRight(before: nat, pos: Option<nat>, after: nat, pos': Option<nat>) {
    if pos.Some? then pos' == pos && after == before
    else if pos'.Some? then after == before + 1 && pos'.value == before
    else after == before
  }

  lemma AppendSteps(cfg: Config, sh: Shared, d: Decision, env: Env)
    ensures var e := NextEntry(cfg.c, cfg.pub, sh.log, LogRequest(cfg, d, env));
            && Append(cfg.c, cfg.pub, sh.log, LogRequest(cfg, d, env))
               == (if e.Some? then sh.log + [e.value] else sh.log)
            && (e.Some? ==> e.value.record.decision == MapDecision(d.verdict) && e.value.record.binding == d.binding)
  {
    hide CanonicalBytes, PrevOf;
  }

  /** What a step of one request may do to the shared state and to its own place. */
  ghost predicate StepRight(cfg: Config, sh: Shared, base: nat, req: Req, pc: PC, sh': Shared, pc': PC) {
    && Sound(cfg.c, cfg.pub, sh'.log)
    && Extends(sh, sh')
    && Local(cfg, sh', base, req, pc')
    && SpendsRight(sh, pc, sh', pc')
    && FillsRight(|sh.log|, EntryOf(pc), |sh'.log|, EntryOf(pc'))
    && FillsRight(|sh.receipts|, ReceiptOf(pc), |sh'.receipts|, ReceiptOf(pc'))
  }

  lemma DecidingRight(cfg: Config, sh: Shared, base: nat, req: Req, pc: PC, env: Env)
    requires pc.Arrived? || pc.Parsed? || pc.Bound? || pc.Fresh? || pc.Cleared?
    requires Sound(cfg.c, cfg.pub, sh.log) && Local(cfg, sh, base, req, pc)
    ensures var (sh', pc') := Advance(cfg, sh, req, pc, env); StepRight(cfg, sh, base, req, pc, sh', pc')
  {
    hide Sound, ComputeBinding, HasReceipt, HasEntry, NextEntry, ReceiptFor, Zero, Expired;
  }

  lemma AllowingRight(cfg: Config, sh: Shared, base: nat, req: Req, pc: PC, env: Env)
    requires Spender(pc) && base <= |sh.log|
    requires Sound(cfg.c, cfg.pub, sh.log) && Local(cfg, sh, base, req, pc)
    ensures var (sh', pc') := Advance(cfg, sh, req, pc, env); StepRight(cfg, sh, base, req, pc, sh', pc')
  {
    hide Sound, NextEntry, ComputeBinding, Append, ReceiptFor, MapDecision;
    if pc.Receipted? {
      AppendSteps(cfg, sh, Decision(Allow, pc.b), env);
      AppendKeepsSound(cfg.c, cfg.pub, sh.log, LogRequest(cfg, Decision(Allow, pc.b), env));
    }
  }

  lemma DenyingRight(cfg: Config, sh: Shared, base: nat, req: Req, pc: PC, env: Env)
    requires pc.Denying? || pc.DenyReceipted? || pc.DenyLogged?
    requires Sound(cfg.c, cfg.pub, sh.log) && Local(cfg, sh, base, req, pc)
    ensures var (sh', pc') := Advance(cfg, sh, req, pc, env); StepRight(cfg, sh, base, req, pc, sh', pc')
  {
    hide Sound, NextEntry, ComputeBinding, Append, ReceiptFor, MapDecision;
    if pc.DenyReceipted? {
      AppendSteps(cfg, sh, pc.d, env);
      AppendKeepsSound(cfg.c, cfg.pub, sh.log, LogRequest(cfg, pc.d, env));
    }
  }

  lemma AdvanceRight(cfg: Config, sh: Shared, base: nat, req: Req, pc: PC, env: Env)
    requires base <= |sh.log| && Sound(cfg.c, cfg.pub, sh.log) && Local(cfg, sh, base, req, pc)
    ensures var (sh', pc') := Advance(cfg, sh, req, pc, env); StepRight(cfg, sh, base, req, pc, sh', pc')
  {
    if pc.Arrived? || pc.Parsed? || pc.Bound? || pc.Fresh? || pc.Cleared? {
      DecidingRight(cfg, sh, base, req, pc, env);
    } else if Spender(pc) {
      AllowingRight(cfg, sh, base, req, pc, env);
    } else if pc.Denying? || pc.DenyReceipted? || pc.DenyLogged? {
      DenyingRight(cfg, sh, base, req, pc, env);
    }
  }

  // ----- and to everybody else

  lemma LocalSurvives(cfg: Config, sh: Shared, sh': Shared, base: nat, req: Req, pc: PC)
    requires Extends(sh, sh') && Local(cfg, sh, base, req, pc)
    ensures Local(cfg, sh', base, req, pc)
  {
    hide ComputeBinding;
  }

  lemma NoncesSurvive(s: State, before: set<Digest>, rid: Rid, sh': Shared, pc': PC)
    requires NoncesMatch(s, before) && rid in s.pcs && SpendsRight(s.shared, s.pcs[rid], sh', pc')
    ensures NoncesMatch(State(sh', s.pcs[rid := pc']), before)
  {
    var s' := State(sh', s.pcs[rid := pc']);
    if Spender(pc') && !Spender(s.pcs[rid]) {
      AddOneToOne(SpentBy(s), rid, pc'.tok.nonce);
      assert SpentBy(s') == SpentBy(s)[rid := pc'.tok.nonce];
    } else {
      assert SpentBy(s') == SpentBy(s);
    }
  }

  /** Taking the next position keeps a one-to-one filling of all positions. */
  lemma PositionsSurvive(m: map<Rid, nat>, m': map<Rid, nat>, base: nat, before: nat, rid: Rid,
                         pos: Option<nat>, after: nat, pos': Option<nat>)
    requires OneToOne(m) && m.Values == Positions(base, before) && base <= before
    requires FillsRight(before, pos, after, pos')
    requires if pos.Some? then rid in m && m[rid] == pos.value else rid !in m
    requires m' == if pos'.Some? then m[rid := pos'.value] else m
    ensures OneToOne(m') && m'.Values == Positions(base, after)
  {
    hide OneToOne;
    if pos.None? && pos'.Some? {
      AddOneToOne(m, rid, before);
      assert Positions(base, before + 1) == Positions(base, before) + {before};
    } else {
      assert m' == m;
    }
  }

  lemma EntriesSurvive(s: State, base: nat, rid: Rid, sh': Shared, pc': PC)
    requires EntriesMatch(s, base) && rid in s.pcs && base <= |s.shared.log|
    requires FillsRight(|s.shared.log|, EntryOf(s.pcs[rid]), |sh'.log|, EntryOf(pc'))
    ensures EntriesMatch(State(sh', s.pcs[rid := pc']), base)
  {
    hide EntryOf, Positions;
    var s' := State(sh', s.pcs[rid := pc']);
    PositionsSurvive(EntryBy(s), EntryBy(s'), base, |s.shared.log|, rid, EntryOf(s.pcs[rid]), |sh'.log|, EntryOf(pc'));
  }

  lemma ReceiptsSurvive(s: State, rbase: nat, rid: Rid, sh': Shared, pc': PC)
    requires ReceiptsMatch(s, rbase) && rid in s.pcs && rbase <= |s.shared.receipts|
    requires FillsRight(|s.shared.receipts|, ReceiptOf(s.pcs[rid]), |sh'.receipts|, ReceiptOf(pc'))
    ensures ReceiptsMatch(State(sh', s.pcs[rid := pc']), rbase)
  {
    hide ReceiptOf, Positions;
    var s' := State(sh', s.pcs[rid := pc']);
    PositionsSurvive(ReceiptBy(s), ReceiptBy(s'), rbase, |s.shared.receipts|, rid,
                     ReceiptOf(s.pcs[rid]), |sh'.receipts|, ReceiptOf(pc'));
  }

  lemma StepKeepsInv(cfg: Config, reqs: map<Rid, Req>, first: Shared, s: State, rid: Rid, env: Env)
    requires Inv(cfg, reqs, first, s)
    ensures Inv(cfg, reqs, first, Step(cfg, reqs, s, rid, env))
    ensures Extends(s.shared, Step(cfg, reqs, s, rid, env).shared)
  {
    hide Sound, Advance, NoncesMatch, EntriesMatch, ReceiptsMatch, Local, FillsRight;
    if rid in reqs {
      var base := |first.log|;
      var (sh', pc') := Advance(cfg, s.shared, reqs[rid], s.pcs[rid], env);
      AdvanceRight(cfg, s.shared, base, reqs[rid], s.pcs[rid], env);
      NoncesSurvive(s, first.spent, rid, sh', pc');
      EntriesSurvive(s, base, rid, sh', pc');
      ReceiptsSurvive(s, |first.receipts|, rid, sh', pc');
      forall r | r in reqs && r != rid ensures Local(cfg, sh', base, reqs[r], s.pcs[r]) {
        LocalSurvives(cfg, s.shared, sh', base, reqs[r], s.pcs[r]);
      }
    }
  }

  lemma {:induction false} EveryRunKeepsInv(cfg: Config, reqs: map<Rid, Req>, first: Shared, s: State, sch: Schedule)
    requires Inv(cfg, reqs, first, s)
    ensures Inv(cfg, reqs, first, Exec(cfg, reqs, s, sch))
    ensures Extends(s.shared, Exec(cfg, reqs, s, sch).shared)
    decreases |sch|
  {
    hide Inv, Step;
    if sch == [] {
    } else {
      StepKeepsInv(cfg, reqs, first, s, sch[0].0, sch[0].1);
      EveryRunKeepsInv(cfg, reqs, first, Step(cfg, reqs, s, sch[0].0, sch[0].1), sch[1..]);
    }
  }

  lemma ReachableInv(cfg: Config, reqs: map<Rid, Req>, s: State, sch: Schedule)
    requires Initial(cfg, reqs, s)
    ensures Inv(cfg, reqs, s.shared, Exec(cfg, reqs, s, sch))
  {
    hide Exec, Inv;
    InitialInv(cfg, reqs, s);
    EveryRunKeepsInv(cfg, reqs, s.shared, s, sch);
  }

  lemma InitialInv(cfg: Config, reqs: map<Rid, Req>, s: State)
    requires Initial(cfg, reqs, s)
    ensures Inv(cfg, reqs, s.shared, s)
  {
    hide Sound, NoncesMatch, EntriesMatch, ReceiptsMatch, Local;
    NothingYet(s);
    forall r | r in reqs ensures Local(cfg, s.shared, |s.shared.log|, reqs[r], s.pcs[r]) {
      ArrivedLocal(cfg, s.shared, |s.shared.log|, reqs[r]);
    }
  }

  lemma NothingYet(s: State)
    requires forall r :: r in s.pcs ==> s.pcs[r].Arrived?
    ensures NoncesMatch(s, s.shared.spent) && EntriesMatch(s, |s.shared.log|) && ReceiptsMatch(s, |s.shared.receipts|)
  {
    assert SpentBy(s) == map[] && EntryBy(s) == map[] && ReceiptBy(s) == map[];
  }

  lemma ArrivedLocal(cfg: Config, sh: Shared, base: nat, req: Req)
    ensures Local(cfg, sh, base, req, Arrived)
  {
  }

  // ----- the promises

  /**
   In every interleaving, a request answered 200 had its PERMIT receipt recorded and only then
   an ALLOW entry with the same binding appended, and that binding is the request's own.
   */
  lemma ServedHasEvidence(cfg: Config, reqs: map<Rid, Req>, s: State, sch: Schedule, rid: Rid)
    requires Initial(cfg, reqs, s)
    ensures var s' := Exec(cfg, reqs, s, sch);
            && Sound(cfg.c, cfg.pub, s'.shared.log)
            && (rid in s'.pcs && Answered(s'.pcs[rid]) && Status(s'.pcs[rid]) == 200 ==>
                  var pc := s'.pcs[rid];
                  && pc.Served? && rid in reqs && Binds(cfg, reqs[rid], pc.tok, pc.b)
                  && HasReceipt(s'.shared, Decision(Allow, pc.b), pc.receipt)
                  && HasEntry(s'.shared, Decision(Allow, pc.b), pc.entry)
                  && |s.shared.log| <= pc.at <= pc.entry)
  {
    hide Sound, Exec, NoncesMatch, EntriesMatch, ReceiptsMatch, ComputeBinding, HasEntry, HasReceipt;
    ReachableInv(cfg, reqs, s, sch);
  }

  function ServedIn(s: State): set<Rid> { set r | r in s.pcs && s.pcs[r].Served? }

  /** Appended, and not yet answered. */
  function ServingIn(s: State): set<Rid> { set r | r in s.pcs && s.pcs[r].Logged? }

  /** Answered 503 after an ALLOW decision, because Emit or Append failed. */
  function RefusedIn(s: State): set<Rid> { set r | r in s.pcs && (s.pcs[r].EmitFailed? || s.pcs[r].AppendFailed?) }

  /** Decided ALLOW, and not yet answered. */
  function FlyingIn(s: State): set<Rid> {
    set r | r in s.pcs && (s.pcs[r].Granted? || s.pcs[r].Receipted? || s.pcs[r].Logged?)
  }

  /**
   The chain is the list of recorded decisions: in every interleaving each appended entry
   belongs to exactly one request and carries that request's decision and binding, and
   likewise each receipt.
   */
  lemma EvidenceIsDecisions(cfg: Config, reqs: map<Rid, Req>, s: State, sch: Schedule)
    requires Initial(cfg, reqs, s)
    ensures var s' := Exec(cfg, reqs, s, sch);
            && OneToOne(EntryBy(s')) && EntryBy(s').Values == Positions(|s.shared.log|, |s'.shared.log|)
            && OneToOne(ReceiptBy(s')) && ReceiptBy(s').Values == Positions(|s.shared.receipts|, |s'.shared.receipts|)
            && (forall r :: r in s'.pcs ==> EvidenceMatches(s'.shared, s'.pcs[r]))
            && |s'.shared.log| == |s.shared.log| + |EntryBy(s').Keys|
  {
    hide Sound, Exec, EvidenceMatches, NoncesMatch, Positions, DecisionOf, EntryOf, ReceiptOf, Binds;
    ReachableInv(cfg, reqs, s, sch);
    var s' := Exec(cfg, reqs, s, sch);
    forall r | r in s'.pcs ensures EvidenceMatches(s'.shared, s'.pcs[r]) {
      assert Local(cfg, s'.shared, |s.shared.log|, reqs[r], s'.pcs[r]);
    }
    OneToOneSize(EntryBy(s'));
  }

  /** The ALLOW entries appended since base. */
  function AllowEntries(sh: Shared, base: nat): set<nat> {
    set i | base <= i < |sh.log| && sh.log[i].record.decision == ALLOW
  }

  /** The PERMIT receipts recorded since base. */
  function PermitReceipts(sh: Shared, base: nat): set<nat> {
    set j | base <= j < |sh.receipts| && sh.receipts[j].permit
  }

  /** The part of a map on some of its keys. */
  function Only<V>(m: map<Rid, V>, rs: set<Rid>): map<Rid, V> {
    map r | r in m && r in rs :: m[r]
  }

  /** No false ALLOW: the ALLOW entries appended are exactly those of requests served or about to be, one each. */
  lemma AllowEntriesAreServices(cfg: Config, reqs: map<Rid, Req>, s: State, sch: Schedule)
    requires Initial(cfg, reqs, s)
    ensures var s' := Exec(cfg, reqs, s, sch);
            var allowed := AllowEntries(s'.shared, |s.shared.log|);
            && allowed == Only(EntryBy(s'), ServedIn(s') + ServingIn(s')).Values
            && |allowed| == |ServedIn(s')| + |ServingIn(s')|
  {
    hide Sound, Exec, Local, NoncesMatch, ReceiptsMatch;
    ReachableInv(cfg, reqs, s, sch);
    var s' := Exec(cfg, reqs, s, sch);
    EntriesAreTheirs(cfg, reqs, s.shared, s');
    EntryCount(s');
  }

  lemma ServicesHaveAllows(cfg: Config, sh: Shared, base: nat, req: Req, pc: PC)
    requires Local(cfg, sh, base, req, pc) && EntryOf(pc).Some?
    ensures EntryOf(pc).value < |sh.log|
    ensures sh.log[EntryOf(pc).value].record.decision == ALLOW <==> pc.Served? || pc.Logged?
  {
    hide Binds, HasReceipt;
  }

  lemma EntriesAreTheirs(cfg: Config, reqs: map<Rid, Req>, first: Shared, s: State)
    requires Inv(cfg, reqs, first, s)
    ensures AllowEntries(s.shared, |first.log|) == Only(EntryBy(s), ServedIn(s) + ServingIn(s)).Values
  {
    hide Sound, NoncesMatch, ReceiptsMatch, Local, Positions;
    var chain := Only(EntryBy(s), ServedIn(s) + ServingIn(s));
    forall i | i in AllowEntries(s.shared, |first.log|) ensures i in chain.Values {
      assert i in EntryBy(s).Values;
      var r :| r in EntryBy(s) && EntryBy(s)[r] == i;
      ServicesHaveAllows(cfg, s.shared, |first.log|, reqs[r], s.pcs[r]);
      assert r in chain && chain[r] == i;
    }
    forall i | i in chain.Values ensures i in AllowEntries(s.shared, |first.log|) {
      var r :| r in chain && chain[r] == i;
      ServicesHaveAllows(cfg, s.shared, |first.log|, reqs[r], s.pcs[r]);
      assert r in EntryBy(s) && i in EntryBy(s).Values;
    }
  }

  lemma EntryCount(s: State)
    requires OneToOne(EntryBy(s))
    ensures |Only(EntryBy(s), ServedIn(s) + ServingIn(s)).Values| == |ServedIn(s)| + |ServingIn(s)|
  {
    var chain := Only(EntryBy(s), ServedIn(s) + ServingIn(s));
    OneToOneSize(chain);
    assert chain.Keys == ServedIn(s) + ServingIn(s);
    assert ServedIn(s) !! ServingIn(s);
  }

  /** Receipt recorded, entry not appended: still on the way, or answered 503. */
  function UnchainedIn(s: State): set<Rid> {
    set r | r in s.pcs && (s.pcs[r].Receipted? || s.pcs[r].AppendFailed?)
  }

  /** Requests holding a PERMIT receipt. */
  function PermitHolders(s: State): set<Rid> {
    ServedIn(s) + ServingIn(s) + UnchainedIn(s)
  }

  lemma HoldersHavePermits(cfg: Config, sh: Shared, base: nat, req: Req, pc: PC)
    requires Local(cfg, sh, base, req, pc) && ReceiptOf(pc).Some?
    ensures ReceiptOf(pc).value < |sh.receipts|
    ensures sh.receipts[ReceiptOf(pc).value].permit <==> pc.Served? || pc.Logged? || pc.Receipted? || pc.AppendFailed?
  {
    hide Binds, HasEntry;
  }

  lemma PermitsAreTheirs(cfg: Config, reqs: map<Rid, Req>, first: Shared, s: State)
    requires Inv(cfg, reqs, first, s)
    ensures PermitReceipts(s.shared, |first.receipts|) == Only(ReceiptBy(s), PermitHolders(s)).Values
  {
    hide Sound, NoncesMatch, EntriesMatch, Local, Positions;
    var permits := Only(ReceiptBy(s), PermitHolders(s));
    forall j | j in PermitReceipts(s.shared, |first.receipts|) ensures j in permits.Values {
      assert j in ReceiptBy(s).Values;
      var r :| r in ReceiptBy(s) && ReceiptBy(s)[r] == j;
      HoldersHavePermits(cfg, s.shared, |first.log|, reqs[r], s.pcs[r]);
      assert r in permits && permits[r] == j;
    }
    forall j | j in permits.Values ensures j in PermitReceipts(s.shared, |first.receipts|) {
      var r :| r in permits && permits[r] == j;
      HoldersHavePermits(cfg, s.shared, |first.log|, reqs[r], s.pcs[r]);
      assert r in ReceiptBy(s) && j in ReceiptBy(s).Values;
    }
  }

  /**
   The evidence-incomplete signal is exact: PERMIT receipts outnumber ALLOW entries by
   precisely the requests whose append failed or is still to come.
   */
  lemma PermitsExceedEntriesExactly(cfg: Config, reqs: map<Rid, Req>, s: State, sch: Schedule)
    requires Initial(cfg, reqs, s)
    ensures var s' := Exec(cfg, reqs, s, sch);
            |PermitReceipts(s'.shared, |s.shared.receipts|)|
            == |AllowEntries(s'.shared, |s.shared.log|)| + |UnchainedIn(s')|
  {
    hide Sound, Exec, Local, NoncesMatch, EntriesMatch;
    ReachableInv(cfg, reqs, s, sch);
    AllowEntriesAreServices(cfg, reqs, s, sch);
    var s' := Exec(cfg, reqs, s, sch);
    PermitsAreTheirs(cfg, reqs, s.shared, s');
    PermitCount(s');
  }

  lemma PermitCount(s: State)
    requires OneToOne(ReceiptBy(s))
    ensures |Only(ReceiptBy(s), PermitHolders(s)).Values| == |ServedIn(s)| + |ServingIn(s)| + |UnchainedIn(s)|
  {
    hide ReceiptBy, ServedIn, ServingIn, UnchainedIn;
    var permits := Only(ReceiptBy(s), PermitHolders(s));
    HoldersApart(s);
    OneToOneSize(permits);
    assert permits.Keys == PermitHolders(s);
  }

  lemma HoldersApart(s: State)
    ensures PermitHolders(s) <= ReceiptBy(s).Keys
    ensures ServedIn(s) !! ServingIn(s) !! UnchainedIn(s)
  {
  }

  /** The nonces spent by a set of requests. */
  function NoncesOf(s: State, rs: set<Rid>): set<Digest> {
    set r | r in SpentBy(s) && r in rs :: SpentBy(s)[r]
  }

  /**
   Conservation: in every interleaving the spent nonces are those spent before, those of the
   requests served, those refused with 503 after an ALLOW, and those still in flight, disjointly
   and one nonce per request. So no denial spends a nonce and no nonce is spent twice.
   */
  lemma NoncesConserved(cfg: Config, reqs: map<Rid, Req>, s: State, sch: Schedule)
    requires Initial(cfg, reqs, s)
    ensures var s' := Exec(cfg, reqs, s, sch);
            var served, refused, flying := ServedIn(s'), RefusedIn(s'), FlyingIn(s');
            && s'.shared.spent
               == s.shared.spent + NoncesOf(s', served) + NoncesOf(s', refused) + NoncesOf(s', flying)
            && s.shared.spent !! NoncesOf(s', served) !! NoncesOf(s', refused) !! NoncesOf(s', flying)
            && |s'.shared.spent| == |s.shared.spent| + |served| + |refused| + |flying|
  {
    hide Sound, Exec, Local, EntriesMatch, ReceiptsMatch;
    ReachableInv(cfg, reqs, s, sch);
    SpendersSplit(Exec(cfg, reqs, s, sch), s.shared.spent);
  }

  lemma SpendersSplit(s: State, before: set<Digest>)
    requires NoncesMatch(s, before)
    ensures var served, refused, flying := ServedIn(s), RefusedIn(s), FlyingIn(s);
            && s.shared.spent == before + NoncesOf(s, served) + NoncesOf(s, refused) + NoncesOf(s, flying)
            && before !! NoncesOf(s, served) !! NoncesOf(s, refused) !! NoncesOf(s, flying)
            && |s.shared.spent| == |before| + |served| + |refused| + |flying|
  {
    hide NoncesOf, OneToOne, SpentBy, ServedIn, RefusedIn, FlyingIn;
    SpenderKeys(s);
    OneToOneSize(SpentBy(s));
    SplitValues(s, ServedIn(s), RefusedIn(s), FlyingIn(s));
  }

  lemma SpenderKeys(s: State)
    ensures SpentBy(s).Keys == ServedIn(s) + RefusedIn(s) + FlyingIn(s)
    ensures ServedIn(s) !! RefusedIn(s) !! FlyingIn(s)
  {
  }

  lemma SplitValues(s: State, a: set<Rid>, b: set<Rid>, c: set<Rid>)
    requires OneToOne(SpentBy(s)) && SpentBy(s).Keys == a + b + c && a !! b !! c
    ensures SpentBy(s).Values == NoncesOf(s, a) + NoncesOf(s, b) + NoncesOf(s, c)
    ensures NoncesOf(s, a) !! NoncesOf(s, b) !! NoncesOf(s, c)
    ensures |SpentBy(s).Keys| == |a| + |b| + |c|
  {
    hide SpentBy;
  }

  /** Single use: at most one request is ever served on a nonce, and none on a nonce spent before. */
  lemma SingleUse(cfg: Config, reqs: map<Rid, Req>, s: State, sch: Schedule, r: Rid, q: Rid)
    requires Initial(cfg, reqs, s)
    ensures var s' := Exec(cfg, reqs, s, sch);
            && (r in ServedIn(s') && q in ServedIn(s') && s'.pcs[r].tok.nonce == s'.pcs[q].tok.nonce ==> r == q)
            && (r in ServedIn(s') ==> s'.pcs[r].tok.nonce !in s.shared.spent)
  {
    hide Sound, Exec, Local, EntriesMatch, ReceiptsMatch;
    ReachableInv(cfg, reqs, s, sch);
    var s' := Exec(cfg, reqs, s, sch);
    assert r in ServedIn(s') ==> SpentBy(s')[r] == s'.pcs[r].tok.nonce;
    if r in ServedIn(s') && q in ServedIn(s') && s'.pcs[r].tok.nonce == s'.pcs[q].tok.nonce {
      assert SpentBy(s')[r] == SpentBy(s')[q];
    }
  }

  /** A binding in the chain names one service: two served requests with the same binding exhibit a collision. */
  lemma OneServicePerBinding(cfg: Config, reqs: map<Rid, Req>, s: State, sch: Schedule, r: Rid, q: Rid)
    requires Initial(cfg, reqs, s) && r != q
    requires var s' := Exec(cfg, reqs, s, sch);
             r in ServedIn(s') && q in ServedIn(s') && s'.pcs[r].b == s'.pcs[q].b
    ensures var s' := Exec(cfg, reqs, s, sch);
            && r in reqs && q in reqs
            && Resolve(cfg.al, reqs[r].pr).Ok? && Resolve(cfg.al, reqs[q].pr).Ok?
            && Collides(cfg.c.hash,
                        BindInputs(cfg.c.hash, Resolve(cfg.al, reqs[r].pr).value, s'.pcs[r].tok.nonce),
                        BindInputs(cfg.c.hash, Resolve(cfg.al, reqs[q].pr).value, s'.pcs[q].tok.nonce))
  {
    hide Sound, Exec, Resolve, SamePayment, Collides, Preimage;
    ServedHasEvidence(cfg, reqs, s, sch, r);
    ServedHasEvidence(cfg, reqs, s, sch, q);
    SingleUse(cfg, reqs, s, sch, r, q);
    var s' := Exec(cfg, reqs, s, sch);
    BindingIdentifiesPayment(cfg.c.hash, cfg.al, reqs[r].pr, s'.pcs[r].tok.nonce, reqs[q].pr, s'.pcs[q].tok.nonce);
  }

  /** In every reachable state, a request without a parseable token changes nothing shared and ends in 401. */
  lemma UnparseableChangesNothing(cfg: Config, reqs: map<Rid, Req>, s: State, sch: Schedule, rid: Rid, env: Env)
    requires Initial(cfg, reqs, s) && rid in reqs && reqs[rid].token.None?
    ensures var s' := Exec(cfg, reqs, s, sch);
            var next := Step(cfg, reqs, s', rid, env);
            next.shared == s'.shared && rid in next.pcs && Answered(next.pcs[rid]) && Status(next.pcs[rid]) == 401
  {
    hide Sound, Exec, NoncesMatch, EntriesMatch, ReceiptsMatch, HasEntry, HasReceipt, ComputeBinding;
    ReachableInv(cfg, reqs, s, sch);
    var s' := Exec(cfg, reqs, s, sch);
    assert Local(cfg, s'.shared, |s.shared.log|, reqs[rid], s'.pcs[rid]);
  }

  /**
   What each status tells the caller, in every interleaving: 401 means no token was
   presented, 402 a violation, 200 an ALLOW that is in the chain, and 503 an outage or an ALLOW
   whose evidence could not be completed. An ALLOW was decided exactly if the nonce was spent for
   this request, so no 401 and no 402 burns a token.
   */
  lemma StatusMeans(cfg: Config, reqs: map<Rid, Req>, s: State, sch: Schedule, rid: Rid)
    requires Initial(cfg, reqs, s) && rid in reqs
    ensures var s' := Exec(cfg, reqs, s, sch);
            && rid in s'.pcs
            && (Answered(s'.pcs[rid]) ==>
                  var pc, code, d := s'.pcs[rid], Status(s'.pcs[rid]), DecisionOf(s'.pcs[rid]);
                  && (code == 401 <==> reqs[rid].token.None?)
                  && (code == 402 <==> d.Some? && d.value.verdict.DenyViolation?)
                  && (code == 200 <==> d.Some? && d.value.verdict.Allow? && EntryOf(pc).Some?)
                  && (code == 503 <==> d.Some? && (d.value.verdict.DenyUnavailable?
                                                   || (d.value.verdict.Allow? && EntryOf(pc).None?)))
                  && (rid in SpentBy(s') <==> d.Some? && d.value.verdict.Allow?))
  {
    hide Sound, Exec, NoncesMatch, EntriesMatch, ReceiptsMatch, HasEntry, HasReceipt, Binds;
    ReachableInv(cfg, reqs, s, sch);
    var s' := Exec(cfg, reqs, s, sch);
    assert Local(cfg, s'.shared, |s.shared.log|, reqs[rid], s'.pcs[rid]);
  }

  // ----- every request is answered

  function MovesOf(sch: Schedule, rid: Rid): nat {
    if sch == [] then 0 else (if sch[0].0 == rid then 1 else 0) + MovesOf(sch[1..], rid)
  }

  /** Nine of its own steps, interleaved in any way, bring every request to an answer. */
  lemma {:induction false} NineStepsAnswer(cfg: Config, reqs: map<Rid, Req>, s: State, sch: Schedule, rid: Rid)
    requires rid in reqs && rid in s.pcs
    ensures var s' := Exec(cfg, reqs, s, sch);
            && rid in s'.pcs
            && Rank(s'.pcs[rid])
               <= (if MovesOf(sch, rid) <= Rank(s.pcs[rid]) then Rank(s.pcs[rid]) - MovesOf(sch, rid) else 0)
            && (MovesOf(sch, rid) >= 9 ==> Answered(s'.pcs[rid]))
    decreases |sch|
  {
    hide Advance;
    AdvanceProgresses(cfg, s.shared, reqs[rid], s.pcs[rid], Env(Permitted, true, true, 0, 0));
    if sch == [] {
    } else {
      var s1 := Step(cfg, reqs, s, sch[0].0, sch[0].1);
      if sch[0].0 == rid {
        AdvanceProgresses(cfg, s.shared, reqs[rid], s.pcs[rid], sch[0].1);
      }
      NineStepsAnswer(cfg, reqs, s1, sch[1..], rid);
    }
  }
}
