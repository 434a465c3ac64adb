/**
 A shared object as its callers may take it to be: every call has one moment at which its
 whole operation happens. The log and the spend log are shown to behave like this.
 */
module AtomicObject {
  import opened Bytes

  type Tid = nat

  /** An object: what an operation makes of its value, and what it reports. */
  type Object<!S, !O, R> = (S, O) -> (S, R)

  datatype Phase<O, R> = Resting | Pending(op: O) | Done(op: O, res: R)

  datatype Spec<S, O, R> = Spec(value: S, phases: map<Tid, Phase<O, R>>)

  datatype Event<O> = Call(t: Tid, op: O) | Commit(t: Tid) | Return(t: Tid)

  predicate Enabled<S, O, R>(a: Spec<S, O, R>, ev: Event<O>) {
    && ev.t in a.phases
    && match ev
       case Call(t, _) => a.phases[t].Resting?
       case Commit(t) => a.phases[t].Pending?
       case Return(t) => a.phases[t].Done?
  }

  function SpecStep<S, O, R>(obj: Object<S, O, R>, a: Spec<S, O, R>, ev: Event<O>): Spec<S, O, R>
    requires Enabled(a, ev)
  {
    match ev
    case Call(t, op) => a.(phases := a.phases[t := Pending(op)])
    case Commit(t) =>
      var op := a.phases[t].op;
      var (value, res) := obj(a.value, op);
      Spec(value, a.phases[t := Done(op, res)])
    case Return(t) => a.(phases := a.phases[t := Resting])
  }

  predicate Legal<S, O, R>(obj: Object<S, O, R>, a: Spec<S, O, R>, evs: seq<Event<O>>)
    decreases |evs|
  {
    evs == [] || (Enabled(a, evs[0]) && Legal(obj, SpecStep(obj, a, evs[0]), evs[1..]))
  }

  function SpecRun<S, O, R>(obj: Object<S, O, R>, a: Spec<S, O, R>, evs: seq<Event<O>>): Spec<S, O, R>
    requires Legal(obj, a, evs)
    decreases |evs|
  {
    if evs == [] then a else SpecRun(obj, SpecStep(obj, a, evs[0]), evs[1..])
  }

  /** A run that starts with an event, or with none. */
  function Before<O>(ev: Option<Event<O>>, evs: seq<Event<O>>): seq<Event<O>> {
    match ev
    case None => evs
    case Some(e) => [e] + evs
  }

  lemma RunBefore<S, O, R>(obj: Object<S, O, R>, a: Spec<S, O, R>, ev: Event<O>, evs: seq<Event<O>>)
    requires Enabled(a, ev) && Legal(obj, SpecStep(obj, a, ev), evs)
    ensures Legal(obj, a, [ev] + evs)
    ensures SpecRun(obj, a, [ev] + evs) == SpecRun(obj, SpecStep(obj, a, ev), evs)
  {
    hide SpecStep, Enabled;
    assert ([ev] + evs)[1..] == evs;
  }

  /** How far threads at these points are with their calls. */
  function Phases<P, O, R>(phase: P -> Phase<O, R>, threads: map<Tid, P>): map<Tid, Phase<O, R>> {
    map t | t in threads :: phase(threads[t])
  }

  /** One thread moves, seen by the object. */
  lemma PhasesMove<P, O, R>(phase: P -> Phase<O, R>, threads: map<Tid, P>, t: Tid, pc: P)
    requires t in threads
    ensures Phases(phase, threads[t := pc]) == Phases(phase, threads)[t := phase(pc)]
    ensures phase(pc) == phase(threads[t]) ==> Phases(phase, threads[t := pc]) == Phases(phase, threads)
  {
  }
}
