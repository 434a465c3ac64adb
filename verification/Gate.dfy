/** The gate's decision (gate/gate.go) and the in-memory spend log (gate/mem_spendlog.go). */
module Gate {
  import opened Bytes
  import opened Hashing
  import opened Binding

  datatype Class = Allow | DenyViolation | DenyUnavailable

  /** `expiry` is None for the zero time. */
  datatype Token = Token(nonce: Digest, expiry: Option<int>)

  /** What PolicyVerifier.Verify returns: nil, an error, or an error wrapped by Unavailable. */
  datatype Policy = Permitted | Violation | Outage

  /** What SpendLog.Spend returns: nil, ErrReplay, or any other error. */
  datatype Spending = Spent | Replay | Down

  /** On a binding error the binding is the zero value. */
  datatype Decision = Decision(verdict: Class, binding: Digest)

  predicate Expired(tok: Token, now: int) {
    tok.expiry.Some? && now > tok.expiry.value
  }

  /** One atomic Spend against a store that may be down. */
  function SpendOn(seen: set<Digest>, up: bool, nonce: Digest): (Spending, set<Digest>) {
    if !up then (Down, seen)
    else if nonce in seen then (Replay, seen)
    else (Spent, seen + {nonce})
  }

  function Evaluate(H: HashFn, al: Allowlist, pr: Requirements, tok: Token, policy: Policy,
                    seen: set<Digest>, up: bool, now: int): (Decision, set<Digest>)
  {
    match ComputeBinding(H, al, pr, tok.nonce)
    case Err(_) => (Decision(DenyViolation, Zero()), seen)
    case Ok(b) =>
      if Expired(tok, now) then (Decision(DenyViolation, b), seen)
      else if policy.Outage? then (Decision(DenyUnavailable, b), seen)
      else if policy.Violation? then (Decision(DenyViolation, b), seen)
      else
        match SpendOn(seen, up, tok.nonce)
        case (Replay, _) => (Decision(DenyViolation, b), seen)
        case (Down, _) => (Decision(DenyUnavailable, b), seen)
        case (Spent, seen') => (Decision(Allow, b), seen')
  }

  /**
   Each class has its exact cause, and a nonce is spent exactly by an ALLOW: no denial
   burns a token, and a binding or policy mistake can be retried.
   */
  lemma EvaluateExactly(H: HashFn, al: Allowlist, pr: Requirements, tok: Token, policy: Policy,
                        seen: set<Digest>, up: bool, now: int)
    ensures var (d, seen') := Evaluate(H, al, pr, tok, policy, seen, up, now);
            var bound := ComputeBinding(H, al, pr, tok.nonce);
            var reached := bound.Ok? && (tok.expiry.None? || now <= tok.expiry.value);
            && (d.verdict.Allow? <==> reached && policy.Permitted? && up && tok.nonce !in seen)
            && (d.verdict.DenyUnavailable? <==> reached && (policy.Outage? || (policy.Permitted? && !up)))
            && seen' == (if d.verdict.Allow? then seen + {tok.nonce} else seen)
            && d.binding == (if bound.Ok? then bound.value else Zero())
  {
    hide ComputeBinding, Zero;
  }

  /**
   A token is good up to and including its expiry and never after: what is allowed at a time is
   allowed at every earlier time, and what is allowed at all under an expiry is allowed exactly
   until then.
   */
  lemma FreshUntilExpiry(H: HashFn, al: Allowlist, pr: Requirements, tok: Token, policy: Policy,
                         seen: set<Digest>, up: bool, now: int, at: int)
    ensures Evaluate(H, al, pr, tok, policy, seen, up, now).0.verdict.Allow? ==>
              && (at <= now ==> Evaluate(H, al, pr, tok, policy, seen, up, at)
                                == Evaluate(H, al, pr, tok, policy, seen, up, now))
              && (Evaluate(H, al, pr, tok, policy, seen, up, at).0.verdict.Allow? <==>
                    tok.expiry.None? || at <= tok.expiry.value)
  {
    hide ComputeBinding, Zero;
  }

  class MemSpendLog {
    var seen: set<Digest>

    constructor ()
      ensures seen == {}
    {
      seen := {};
    }

    /** Test and set: succeeds exactly once for each nonce. */
    method Spend(nonce: Digest) returns (r: Spending)
      modifies this
      ensures (r, seen) == SpendOn(old(seen), true, nonce)
      ensures r.Spent? <==> nonce !in old(seen)
      ensures seen == old(seen) + {nonce}
    {
      if nonce in seen {
        return Replay;
      }
      seen := seen + {nonce};
      return Spent;
    }
  }

  /** A SpendLog over a store that may not answer; a store that is down changes nothing. */
  method SpendThrough(spend: MemSpendLog, up: bool, nonce: Digest) returns (r: Spending)
    modifies spend
    ensures (r, spend.seen) == SpendOn(old(spend.seen), up, nonce)
  {
    if !up {
      return Down;
    }
    r := spend.Spend(nonce);
  }

  method EvaluateWith(H: HashFn, al: Allowlist, pr: Requirements, tok: Token, policy: Policy,
                      spend: MemSpendLog, up: bool, now: int) returns (d: Decision)
    modifies spend
    ensures (d, spend.seen) == Evaluate(H, al, pr, tok, policy, old(spend.seen), up, now)
  {
    hide ComputeBinding, Zero;
    var bound := ComputeBinding(H, al, pr, tok.nonce);
    if bound.Err? { return Decision(DenyViolation, Zero()); }
    var b := bound.value;
    if Expired(tok, now) { return Decision(DenyViolation, b); }
    if !policy.Permitted? {
      return Decision(if policy.Outage? then DenyUnavailable else DenyViolation, b);
    }
    var r := SpendThrough(spend, up, tok.nonce);
    if r.Replay? { return Decision(DenyViolation, b); }
    if r.Down? { return Decision(DenyUnavailable, b); }
    return Decision(Allow, b);
  }

  /**
   Decisions on malformed payments are all alike, whatever the payments, tokens, policies, stores
   and times: the zero binding ties them to none of them.
   */
  lemma MalformedPaymentsShareBinding(H: HashFn, al: Allowlist, p: Requirements, tok: Token, policy: Policy,
                                      seen: set<Digest>, up: bool, now: int,
                                      p': Requirements, tok': Token, policy': Policy,
                                      seen': set<Digest>, up': bool, now': int)
    requires ComputeBinding(H, al, p, tok.nonce).Err? && ComputeBinding(H, al, p', tok'.nonce).Err?
    ensures Evaluate(H, al, p, tok, policy, seen, up, now) == (Decision(DenyViolation, Zero()), seen)
    ensures Evaluate(H, al, p', tok', policy', seen', up', now').0 == Evaluate(H, al, p, tok, policy, seen, up, now).0
  {
  }

  /**
   Such payments exist beside every payment that binds: with its own scheme, network and keys,
   all admitted, and no amount, two payments for different resources.
   */
  lemma TwoMalformedPayments(H: HashFn, al: Allowlist, pr: Requirements, nonce: Digest)
    requires ComputeBinding(H, al, pr, nonce).Ok?
    ensures var p := pr.(maxAmount := []);
            var q := p.(resource := pr.resource + [0]);
            && p != q
            && ComputeBinding(H, al, p, nonce) == Err(BadAmount)
            && ComputeBinding(H, al, q, nonce) == Err(BadAmount)
  {
    assert |pr.resource + [0]| == |pr.resource| + 1;
  }
}
