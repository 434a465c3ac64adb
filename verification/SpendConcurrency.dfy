/**
 MemSpendLog under concurrent callers (gate/mem_spendlog.go). Spend is split into taking the
 mutex, looking the nonce up, inserting it and releasing the mutex; a schedule interleaves
 the steps of any number of threads.
 */
module SpendConcurrency {
  import opened Bytes
  import opened AtomicObject
  import opened Gate

  // ----- the atomic object

  type SpendSpec = Spec<set<Digest>, Digest, Spending>

  /** One operation is one SpendOn. */
  function SpendObject(): Object<set<Digest>, Digest, Spending> {
    (seen: set<Digest>, nonce: Digest) => (SpendOn(seen, true, nonce).1, SpendOn(seen, true, nonce).0)
  }

  /** The nonces reported as spent, in commit order. */
  function Winners(a: SpendSpec, evs: seq<Event<Digest>>): seq<Digest>
    requires Legal(SpendObject(), a, evs)
    decreases |evs|
  {
    if evs == [] then []
    else
      var a' := SpecStep(SpendObject(), a, evs[0]);
      var rest := Winners(a', evs[1..]);
      if evs[0].Commit? && a'.phases[evs[0].t].res.Spent? then [a'.phases[evs[0].t].op] + rest else rest
  }

  // ----- the threads

  datatype PC =
    | Idle
    | Waiting(nonce: Digest)
    | Entered(nonce: Digest)
    | LookedUp(nonce: Digest, found: bool)
    | Finished(nonce: Digest, res: Spending)
    | Returned(nonce: Digest, res: Spending)

  datatype State = State(lock: Option<Tid>, seen: set<Digest>, threads: map<Tid, PC>)

  /** Thread t moves; an idle thread calls Spend(nonce). With `guarded` false the mutex is ignored. */
  function Step(guarded: bool, s: State, t: Tid, nonce: Digest): State {
    if t !in s.threads then s
    else
      match s.threads[t]
      case Idle => s.(threads := s.threads[t := Waiting(nonce)])
      case Waiting(n) =>
        if guarded && s.lock.Some? then s
        else s.(lock := if guarded then Some(t) else None, threads := s.threads[t := Entered(n)])
      case Entered(n) => s.(threads := s.threads[t := LookedUp(n, n in s.seen)])
      case LookedUp(n, true) => s.(threads := s.threads[t := Finished(n, Replay)])
      case LookedUp(n, false) => s.(seen := s.seen + {n}, threads := s.threads[t := Finished(n, Spent)])
      case Finished(n, res) => s.(lock := None, threads := s.threads[t := Returned(n, res)])
      case Returned(_, _) => s.(threads := s.threads[t := Idle])
  }

  type Schedule = seq<(Tid, Digest)>

  function Exec(guarded: bool, s: State, sch: Schedule): State
    decreases |sch|
  {
    if sch == [] then s else Exec(guarded, Step(guarded, s, sch[0].0, sch[0].1), sch[1..])
  }

  predicate AtRest(s: State) {
    s.lock.None? && forall t :: t in s.threads ==> s.threads[t].Idle?
  }

  // ----- refinement

  function PhaseOf(pc: PC): Phase<Digest, Spending> {
    match pc
    case Idle => Resting
    case Finished(nonce, res) => Done(nonce, res)
    case Returned(nonce, res) => Done(nonce, res)
    case _ => Pending(pc.nonce)
  }

  function Abs(s: State): SpendSpec {
    Spec(s.seen, Phases(PhaseOf, s.threads))
  }

  predicate Critical(pc: PC) {
    pc.Entered? || pc.LookedUp? || pc.Finished?
  }

  /** A thread in its critical section holds the mutex, and its lookup is still right. */
  ghost predicate Inv(s: State) {
    && (forall t :: t in s.threads && Critical(s.threads[t]) ==> s.lock == Some(t))
    && (forall t :: t in s.threads && s.threads[t].LookedUp? ==>
          (s.threads[t].found <==> s.threads[t].nonce in s.seen))
  }

  function EventOf(s: State, t: Tid, nonce: Digest): Option<Event<Digest>> {
    if t !in s.threads then None
    else
      match s.threads[t]
      case Idle => Some(Call(t, nonce))
      case LookedUp(_, _) => Some(Commit(t))
      case Returned(_, _) => Some(Return(t))
      case _ => None
  }

  function Trace(s: State, sch: Schedule): seq<Event<Digest>>
    decreases |sch|
  {
    if sch == [] then []
    else
      Before(EventOf(s, sch[0].0, sch[0].1), Trace(Step(true, s, sch[0].0, sch[0].1), sch[1..]))
  }

  /** Every step of every thread is one enabled atomic event or none at all. */
  lemma StepRefines(s: State, t: Tid, nonce: Digest)
    requires Inv(s)
    ensures var s' := Step(true, s, t, nonce);
            && Inv(s')
            && match EventOf(s, t, nonce)
               case None => Abs(s') == Abs(s)
               case Some(ev) => Enabled(Abs(s), ev) && Abs(s') == SpecStep(SpendObject(), Abs(s), ev)
  {
    if t in s.threads {
      var s' := Step(true, s, t, nonce);
      PhasesMove(PhaseOf, s.threads, t, s'.threads[t]);
      assert s'.threads == s.threads[t := s'.threads[t]];
      assert Critical(s.threads[t]) ==> s.lock == Some(t);
    }
  }

  /** Every interleaving refines the atomic spend log run over its trace. */
  lemma {:induction false} EveryInterleavingRefines(s: State, sch: Schedule)
    requires Inv(s)
    ensures Inv(Exec(true, s, sch))
    ensures Legal(SpendObject(), Abs(s), Trace(s, sch))
    ensures Abs(Exec(true, s, sch)) == SpecRun(SpendObject(), Abs(s), Trace(s, sch))
    decreases |sch|
  {
    hide Inv, Abs, Step, Enabled, SpecStep, SpendObject, EventOf;
    if sch == [] {
    } else {
      var s' := Step(true, s, sch[0].0, sch[0].1);
      StepRefines(s, sch[0].0, sch[0].1);
      EveryInterleavingRefines(s', sch[1..]);
      match EventOf(s, sch[0].0, sch[0].1)
      case None =>
      case Some(ev) => RunBefore(SpendObject(), Abs(s), ev, Trace(s', sch[1..]));
    }
  }

  /** A list whose members are all different and all outside a set. */
  ghost predicate NewAndDistinct(ns: seq<Digest>, seen: set<Digest>) {
    && (forall i :: 0 <= i < |ns| ==> ns[i] !in seen)
    && (forall i, j :: 0 <= i < j < |ns| ==> ns[i] != ns[j])
  }

  lemma {:induction false} SpecRunSpendsOnce(a: SpendSpec, evs: seq<Event<Digest>>)
    requires Legal(SpendObject(), a, evs)
    ensures NewAndDistinct(Winners(a, evs), a.value)
    ensures forall n :: n in SpecRun(SpendObject(), a, evs).value <==> n in a.value || n in Winners(a, evs)
    decreases |evs|
  {
    if evs == [] {
    } else {
      SpecRunSpendsOnce(SpecStep(SpendObject(), a, evs[0]), evs[1..]);
    }
  }

  /**
   In every interleaving from rest, the calls that report success do so for different nonces,
   none of them seen before, and those are exactly the nonces the log gained.
   */
  lemma EachNonceWonOnce(s: State, sch: Schedule)
    requires AtRest(s)
    ensures Legal(SpendObject(), Abs(s), Trace(s, sch))
    ensures NewAndDistinct(Winners(Abs(s), Trace(s, sch)), s.seen)
    ensures forall n :: n in Exec(true, s, sch).seen <==> n in s.seen || n in Winners(Abs(s), Trace(s, sch))
  {
    hide Exec, Trace, Winners, Legal, SpecRun;
    assert Inv(s);
    EveryInterleavingRefines(s, sch);
    SpecRunSpendsOnce(Abs(s), Trace(s, sch));
  }

  // ----- why the mutex is needed

  /** Without the mutex two calls can both report success on one nonce. */
  lemma UnguardedSpendsTwice(n: Digest)
    ensures var sch := [(0, n), (1, n), (0, n), (1, n), (0, n), (1, n), (0, n), (1, n)];
            var s' := Exec(false, State(None, {}, map[0 := Idle, 1 := Idle]), sch);
            && 0 in s'.threads && 1 in s'.threads
            && s'.threads[0] == Finished(n, Spent) && s'.threads[1] == Finished(n, Spent)
  {
    var s := State(None, {}, map[0 := Idle, 1 := Idle]);
    var called := RoundOf(s, n, [(0, n), (1, n), (0, n), (1, n), (0, n), (1, n), (0, n), (1, n)]);
    var entered := RoundOf(called, n, [(0, n), (1, n), (0, n), (1, n), (0, n), (1, n)]);
    var lookedUp := RoundOf(entered, n, [(0, n), (1, n), (0, n), (1, n)]);
    var stored := RoundOf(lookedUp, n, [(0, n), (1, n)]);
    assert Exec(false, stored, []) == stored;
  }

  /** One move of thread 0, then one of thread 1. */
  lemma RoundOf(s: State, n: Digest, sch: Schedule) returns (s': State)
    requires |sch| >= 2 && sch[0] == (0, n) && sch[1] == (1, n)
    ensures s' == Step(false, Step(false, s, 0, n), 1, n)
    ensures Exec(false, s, sch) == Exec(false, s', sch[2..])
  {
    hide Step;
    s' := Step(false, Step(false, s, 0, n), 1, n);
    assert sch[1..][1..] == sch[2..];
  }
}
