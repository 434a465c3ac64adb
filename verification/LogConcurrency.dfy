/**
 The Log under concurrent callers (translog/log.go, translog/store.go). Each method is
 split into the steps another goroutine can interleave with: taking the mutex, reading
 the tail, building and signing, reading the slice header, storing the longer slice,
 reading or checking entries one at a time, releasing the mutex. A schedule says which thread moves
 next; every interleaving of any number of threads is a schedule.
 */
module LogConcurrency {
  import opened Bytes
  import opened AtomicObject
  import opened Merkle
  import opened Record
  import opened TransLog

  datatype Op = OpAppend(req: Request) | OpRoot | OpProof(i: int) | OpEncode | OpLen | OpAt(i: int) | OpVerify

  datatype Res =
    | Appended(e: Option<Entry>)
    | RootIs(root: Digest)
    | ProofIs(path: Option<seq<Digest>>)
    | Snapshot(root: Digest, body: seq<Entry>)
    | LenIs(n: nat)
    | RecordIs(r: Option<Rec>)
    | FaultIs(fault: Option<Fault>)

  // ----- the atomic object

  /** One operation in one step. */
  function Atomic(c: Crypto, pub: Key, es: seq<Entry>, op: Op): (seq<Entry>, Res) {
    match op
    case OpAppend(req) => (Append(c, pub, es, req), Appended(NextEntry(c, pub, es, req)))
    case OpRoot => (es, RootIs(RootOf(c, es)))
    case OpProof(i) => (es, ProofIs(ProofOf(c, es, i)))
    case OpEncode => (es, Snapshot(RootOf(c, es), es))
    case OpLen => (es, LenIs(|es|))
    case OpAt(i) => (es, RecordIs(RecordAt(es, i)))
    case OpVerify => (es, FaultIs(FirstFault(c, pub, es, 0)))
  }

  /** The atomic object is the Log: each operation is its method's effect and answer. */
  method Perform(l: Log, op: Op) returns (r: Res)
    modifies l
    ensures (l.entries, r) == Atomic(l.c, l.pub, old(l.entries), op)
  {
    match op
    case OpAppend(req) =>
      var e := l.AppendEntry(req);
      return Appended(e);
    case OpRoot =>
      var root := l.Root();
      return RootIs(root);
    case OpProof(i) =>
      var path := l.Proof(i);
      return ProofIs(path);
    case OpEncode =>
      var root := l.Root();
      return Snapshot(root, l.entries);
    case OpLen =>
      var n := l.Len();
      return LenIs(n);
    case OpAt(i) =>
      var rec := l.At(i);
      return RecordIs(rec);
    case OpVerify =>
      var fault := l.Verify();
      return FaultIs(fault);
  }

  type LogSpec = Spec<seq<Entry>, Op, Res>

  function LogObject(c: Crypto, pub: Key): Object<seq<Entry>, Op, Res> {
    (es: seq<Entry>, op: Op) => Atomic(c, pub, es, op)
  }

  /** The entries reported as appended, in commit order. */
  function Written(c: Crypto, pub: Key, a: LogSpec, evs: seq<Event<Op>>): seq<Entry>
    requires Legal(LogObject(c, pub), a, evs)
    decreases |evs|
  {
    if evs == [] then []
    else
      var a' := SpecStep(LogObject(c, pub), a, evs[0]);
      var rest := Written(c, pub, a', evs[1..]);
      if evs[0].Commit? && a'.phases[evs[0].t].res.Appended? && a'.phases[evs[0].t].res.e.Some?
      then [a'.phases[evs[0].t].res.e.value] + rest
      else rest
  }

  // ----- the threads

  datatype PC =
    | Idle
    | Waiting(op: Op)
    | Entered(op: Op)
    | TailRead(op: Op, n: nat, prev: Digest)
    | Built(op: Op, made: Option<Entry>)
    | SliceRead(op: Op, e: Entry, slice: seq<Entry>)
    | Collecting(op: Op, leaves: seq<Leaf>)
    | Copying(op: Op, root: Digest, body: seq<Entry>)
    | Checking(op: Op, i: nat, prev: Digest)
    | Finished(op: Op, res: Res)
    | Returned(op: Op, res: Res)

  datatype State = State(lock: Option<Tid>, entries: seq<Entry>, threads: map<Tid, PC>)

  /** One step inside the method body: the thread's next point and the shared slice after it. */
  function Inside(c: Crypto, pub: Key, es: seq<Entry>, pc: PC): (PC, seq<Entry>) {
    match pc
    case Entered(OpAppend(req)) => (TailRead(pc.op, |es|, PrevOf(c, es, |es|)), es)
    case Entered(OpLen) => (Finished(OpLen, LenIs(|es|)), es)
    case Entered(OpAt(i)) => (Finished(OpAt(i), RecordIs(RecordAt(es, i))), es)
    case Entered(OpVerify) => (Checking(OpVerify, 0, Zero()), es)
    case Entered(op) => (Collecting(op, []), es)
    case TailRead(OpAppend(req), n, prev) =>
      var r := Rec(n % TWO64, req.decision, req.binding, req.issuedAt, prev);
      var sig := Sign(c, req.priv, r);
      (Built(pc.op, if VerifySig(c, pub, r, sig) then Some(Entry(r, sig)) else None), es)
    case Built(op, None) => (Finished(op, Appended(None)), es)
    case Built(op, Some(e)) => (SliceRead(op, e, es), es)
    case SliceRead(op, e, slice) => (Finished(op, Appended(Some(e))), slice + [e])
    case Collecting(op, leaves) =>
      if |leaves| < |es| then (Collecting(op, leaves + [CanonicalBytes(es[|leaves|].record)]), es)
      else (match op
            case OpRoot => Finished(op, RootIs(MerkleRoot(c.hash, leaves)))
            case OpProof(i) => Finished(op, ProofIs(InclusionProof(c.hash, leaves, i)))
            case _ => Copying(op, MerkleRoot(c.hash, leaves), []),
            es)
    case Copying(op, root, body) =>
      if |body| < |es| then (Copying(op, root, body + [es[|body|]]), es)
      else (Finished(op, Snapshot(root, body)), es)
    case Checking(op, i, prev) =>
      if i >= |es| then (Finished(op, FaultIs(None)), es)
      else if es[i].record.seqNo != i % TWO64 then (Finished(op, FaultIs(Some(SequenceGap))), es)
      else if es[i].record.prevHash != prev then (Finished(op, FaultIs(Some(BrokenChain))), es)
      else if !VerifySig(c, pub, es[i].record, es[i].signature) then (Finished(op, FaultIs(Some(BadSignature))), es)
      else (Checking(op, i + 1, HashOf(c, es[i].record)), es)
    case _ => (pc, es)
  }

  /** Thread t moves; an idle thread calls op. With `guarded` false the mutex is ignored. */
  function Step(c: Crypto, pub: Key, guarded: bool, s: State, t: Tid, op: Op): State {
    if t !in s.threads then s
    else
      match s.threads[t]
      case Idle => s.(threads := s.threads[t := Waiting(op)])
      case Waiting(o) =>
        if guarded && s.lock.Some? then s
        else State(if guarded then Some(t) else None, s.entries, s.threads[t := Entered(o)])
      case Finished(o, res) => State(None, s.entries, s.threads[t := Returned(o, res)])
      case Returned(_, _) => s.(threads := s.threads[t := Idle])
      case pc =>
        var (pc', es') := Inside(c, pub, s.entries, pc);
        State(s.lock, es', s.threads[t := pc'])
  }

  type Schedule = seq<(Tid, Op)>

  function Exec(c: Crypto, pub: Key, guarded: bool, s: State, sch: Schedule): State
    decreases |sch|
  {
    if sch == [] then s else Exec(c, pub, guarded, Step(c, pub, guarded, s, sch[0].0, sch[0].1), sch[1..])
  }

  predicate AtRest(s: State) {
    s.lock.None? && forall t :: t in s.threads ==> s.threads[t].Idle?
  }

  // ----- refinement

  function PhaseOf(pc: PC): Phase<Op, Res> {
    match pc
    case Idle => Resting
    case Finished(op, res) => Done(op, res)
    case Returned(op, res) => Done(op, res)
    case _ => Pending(pc.op)
  }

  function Abs(s: State): LogSpec {
    Spec(s.entries, Phases(PhaseOf, s.threads))
  }

  /** Past taking the mutex and before releasing it. */
  predicate Critical(pc: PC) {
    !pc.Idle? && !pc.Waiting? && !pc.Returned?
  }

  /** What a thread inside its critical section has read is still what the log holds. */
  predicate Current(c: Crypto, pub: Key, es: seq<Entry>, pc: PC) {
    match pc
    case TailRead(op, n, prev) => op.OpAppend? && n == |es| && prev == PrevOf(c, es, |es|)
    case Built(op, made) => op.OpAppend? && made == NextEntry(c, pub, es, op.req)
    case SliceRead(op, e, slice) => op.OpAppend? && slice == es && Some(e) == NextEntry(c, pub, es, op.req)
    case Collecting(op, leaves) =>
      (op.OpRoot? || op.OpProof? || op.OpEncode?) && |leaves| <= |es| && leaves == Leaves(es)[..|leaves|]
    case Copying(op, root, body) => op.OpEncode? && root == RootOf(c, es) && body <= es
    case Checking(op, i, prev) =>
      op.OpVerify? && i <= |es| && prev == PrevOf(c, es, i) && FirstFault(c, pub, es, i) == FirstFault(c, pub, es, 0)
    case _ => true
  }

  ghost predicate Inv(c: Crypto, pub: Key, s: State) {
    && (forall t :: t in s.threads && Critical(s.threads[t]) ==> s.lock == Some(t))
    && (s.lock.Some? ==> s.lock.value in s.threads && Critical(s.threads[s.lock.value]))
    && (forall t :: t in s.threads ==> Current(c, pub, s.entries, s.threads[t]))
  }

  /** The atomic event a step of thread t amounts to, if any. */
  function EventOf(s: State, s': State, t: Tid, op: Op): Option<Event<Op>> {
    if t !in s.threads || t !in s'.threads then None
    else
      match s.threads[t]
      case Idle => Some(Call(t, op))
      case Returned(_, _) => Some(Return(t))
      case Finished(_, _) => None
      case _ => if s'.threads[t].Finished? then Some(Commit(t)) else None
  }

  /** The sequence of atomic events of a whole schedule. */
  function Trace(c: Crypto, pub: Key, s: State, sch: Schedule): seq<Event<Op>>
    decreases |sch|
  {
    if sch == [] then []
    else
      var s' := Step(c, pub, true, s, sch[0].0, sch[0].1);
      Before(EventOf(s, s', sch[0].0, sch[0].1), Trace(c, pub, s', sch[1..]))
  }

  /** A step of the method body either keeps its reads current or commits the atomic operation. */
  lemma InsideRefines(c: Crypto, pub: Key, es: seq<Entry>, pc: PC)
    requires Critical(pc) && !pc.Finished? && Current(c, pub, es, pc)
    ensures var (pc', es') := Inside(c, pub, es, pc);
            && Critical(pc') && pc'.op == pc.op
            && Current(c, pub, es', pc')
            && (pc'.Finished? ==> (es', pc'.res) == Atomic(c, pub, es, pc.op))
            && (!pc'.Finished? ==> es' == es)
  {
    hide CanonicalBytes, PrevOf, MerkleRoot, InclusionProof, Leaves, FirstFault, VerifySig, Zero;
    if pc.Checking? || pc == Entered(OpVerify) {
      CheckingRefines(c, pub, es, pc);
    } else if pc.Collecting? {
      var k := |pc.leaves|;
      assert k < |es| ==> Leaves(es)[..k] + [CanonicalBytes(es[k].record)] == Leaves(es)[..k + 1] by {
        LeavesNext(es, k);
      }
      assert k == |es| ==> pc.leaves == Leaves(es);
    } else if pc.Copying? {
      assert |pc.body| == |es| ==> pc.body == es;
    }
  }

  lemma LeavesNext(es: seq<Entry>, k: nat)
    ensures k < |es| ==> Leaves(es)[..k] + [CanonicalBytes(es[k].record)] == Leaves(es)[..k + 1]
  {
    hide CanonicalBytes;
  }

  /** One iteration of Verify's loop: its running hash is the PrevHash the next record must carry. */
  lemma CheckingRefines(c: Crypto, pub: Key, es: seq<Entry>, pc: PC)
    requires (pc.Checking? || pc == Entered(OpVerify)) && Current(c, pub, es, pc)
    ensures var (pc', es') := Inside(c, pub, es, pc);
            && es' == es && Critical(pc') && pc'.op == OpVerify && Current(c, pub, es, pc')
            && (pc'.Finished? ==> pc'.res == FaultIs(FirstFault(c, pub, es, 0)))
  {
    hide CanonicalBytes, VerifySig;
  }

  /** When thread t moves, nobody else holds reads that a change of the log could make stale. */
  lemma InvMove(c: Crypto, pub: Key, s: State, lock: Option<Tid>, es: seq<Entry>, t: Tid, pc: PC)
    requires Inv(c, pub, s) && t in s.threads && Current(c, pub, es, pc)
    requires s.lock == Some(t) || (s.lock.None? && es == s.entries) || (lock == s.lock && es == s.entries)
    requires Critical(pc) <==> lock == Some(t)
    requires lock.None? || lock == Some(t) || lock == s.lock
    ensures Inv(c, pub, State(lock, es, s.threads[t := pc]))
  {
    forall u | u in s.threads && u != t
      ensures Critical(s.threads[u]) ==> lock == Some(u)
      ensures Current(c, pub, es, s.threads[u])
    {
      assert Critical(s.threads[u]) ==> s.lock == Some(u);
    }
  }

  /** Every step of every thread is one enabled atomic event or none at all. */
  lemma StepRefines(c: Crypto, pub: Key, s: State, t: Tid, op: Op)
    requires Inv(c, pub, s)
    ensures Refines(c, pub, s, Step(c, pub, true, s, t, op), t, op)
  {
    hide Inv, Step, Refines;
    if t !in s.threads {
      AbsentRefines(c, pub, s, t, op);
    } else if Critical(s.threads[t]) && !s.threads[t].Finished? {
      BodyRefines(c, pub, s, t, op);
    } else {
      EdgeRefines(c, pub, s, t, op);
    }
  }

  /** The invariant holds in s', and the atomic object sees the step's event or nothing. */
  ghost predicate Refines(c: Crypto, pub: Key, s: State, s': State, t: Tid, op: Op) {
    && Inv(c, pub, s')
    && match EventOf(s, s', t, op)
       case None => Abs(s') == Abs(s)
       case Some(ev) => Enabled(Abs(s), ev) && Abs(s') == SpecStep(LogObject(c, pub), Abs(s), ev)
  }

  lemma AbsentRefines(c: Crypto, pub: Key, s: State, t: Tid, op: Op)
    requires Inv(c, pub, s) && t !in s.threads
    ensures Refines(c, pub, s, Step(c, pub, true, s, t, op), t, op)
  {
    hide Inv;
  }

  /** A step inside a method body. */
  lemma BodyRefines(c: Crypto, pub: Key, s: State, t: Tid, op: Op)
    requires Inv(c, pub, s) && t in s.threads && Critical(s.threads[t]) && !s.threads[t].Finished?
    ensures Refines(c, pub, s, Step(c, pub, true, s, t, op), t, op)
  {
    hide Inv, Current, Inside, Atomic;
    var pc := s.threads[t];
    var (pc', es') := Inside(c, pub, s.entries, pc);
    LockHeld(c, pub, s, t);
    InsideRefines(c, pub, s.entries, pc);
    InvMove(c, pub, s, s.lock, es', t, pc');
    PhasesMove(PhaseOf, s.threads, t, pc');
  }

  /** A call, an attempt at the mutex, its release, or a return. */
  lemma EdgeRefines(c: Crypto, pub: Key, s: State, t: Tid, op: Op)
    requires Inv(c, pub, s) && t in s.threads && (Critical(s.threads[t]) ==> s.threads[t].Finished?)
    ensures Refines(c, pub, s, Step(c, pub, true, s, t, op), t, op)
  {
    hide Inv, Current, Inside, Atomic;
    var pc := s.threads[t];
    var s' := Step(c, pub, true, s, t, op);
    EnteringIsCurrent(c, pub, s.entries, pc, op);
    LockHeld(c, pub, s, t);
    InvMove(c, pub, s, s'.lock, s.entries, t, s'.threads[t]);
    PhasesMove(PhaseOf, s.threads, t, s'.threads[t]);
  }

  lemma LockHeld(c: Crypto, pub: Key, s: State, t: Tid)
    requires Inv(c, pub, s) && t in s.threads
    ensures Current(c, pub, s.entries, s.threads[t])
    ensures Critical(s.threads[t]) <==> s.lock == Some(t)
  {
  }

  lemma EnteringIsCurrent(c: Crypto, pub: Key, es: seq<Entry>, pc: PC, op: Op)
    ensures Current(c, pub, es, Waiting(op)) && Current(c, pub, es, Idle)
    ensures pc.Waiting? ==> Current(c, pub, es, Entered(pc.op))
    ensures pc.Finished? ==> Current(c, pub, es, Returned(pc.op, pc.res))
  {
  }

  /** Every interleaving refines the atomic object run over its trace. */
  lemma {:induction false} EveryInterleavingRefines(c: Crypto, pub: Key, s: State, sch: Schedule)
    requires Inv(c, pub, s)
    ensures Inv(c, pub, Exec(c, pub, true, s, sch))
    ensures Legal(LogObject(c, pub), Abs(s), Trace(c, pub, s, sch))
    ensures Abs(Exec(c, pub, true, s, sch)) == SpecRun(LogObject(c, pub), Abs(s), Trace(c, pub, s, sch))
    decreases |sch|
  {
    hide Inv, Abs, Step, Enabled, SpecStep, LogObject, EventOf;
    if sch == [] {
    } else {
      var s' := Step(c, pub, true, s, sch[0].0, sch[0].1);
      StepRefines(c, pub, s, sch[0].0, sch[0].1);
      EveryInterleavingRefines(c, pub, s', sch[1..]);
      match EventOf(s, s', sch[0].0, sch[0].1)
      case None =>
      case Some(ev) => RunBefore(LogObject(c, pub), Abs(s), ev, Trace(c, pub, s', sch[1..]));
    }
  }

  /** Acknowledged appends are exactly what the log gained, in commit order, and the chain holds. */
  lemma {:induction false} SpecRunChains(c: Crypto, pub: Key, a: LogSpec, evs: seq<Event<Op>>)
    requires Legal(LogObject(c, pub), a, evs) && Sound(c, pub, a.value)
    ensures var a' := SpecRun(LogObject(c, pub), a, evs);
            Sound(c, pub, a'.value) && a'.value == a.value + Written(c, pub, a, evs)
    decreases |evs|
  {
    hide Sound, NextEntry, RootOf, ProofOf, RecordAt, FirstFault;
    if evs == [] {
    } else {
      var a' := SpecStep(LogObject(c, pub), a, evs[0]);
      if evs[0].Commit? && a.phases[evs[0].t].op.OpAppend? {
        AppendKeepsSound(c, pub, a.value, a.phases[evs[0].t].op.req);
      }
      SpecRunChains(c, pub, a', evs[1..]);
    }
  }

  /**
   In every interleaving from rest the chain stays sound (so no fork and no repeated Seq),
   and the log is what it was plus every acknowledged append (so no lost write).
   */
  lemma NoForkNoLostWrite(c: Crypto, pub: Key, s: State, sch: Schedule)
    requires AtRest(s) && Sound(c, pub, s.entries)
    ensures var s' := Exec(c, pub, true, s, sch);
            && Sound(c, pub, s'.entries)
            && Legal(LogObject(c, pub), Abs(s), Trace(c, pub, s, sch))
            && s'.entries == s.entries + Written(c, pub, Abs(s), Trace(c, pub, s, sch))
  {
    hide Exec, Trace, Written, Legal, SpecRun, Sound;
    RestIsInv(c, pub, s);
    EveryInterleavingRefines(c, pub, s, sch);
    SpecRunChains(c, pub, Abs(s), Trace(c, pub, s, sch));
  }

  lemma RestIsInv(c: Crypto, pub: Key, s: State)
    requires AtRest(s)
    ensures Inv(c, pub, s)
  {
  }

  // ----- why the mutex is needed

  /** Extending a schedule by one move. */
  lemma {:induction false} ExecMore(c: Crypto, pub: Key, guarded: bool, s: State, sch: Schedule, t: Tid, op: Op)
    ensures Exec(c, pub, guarded, s, sch + [(t, op)]) == Step(c, pub, guarded, Exec(c, pub, guarded, s, sch), t, op)
    decreases |sch|
  {
    hide Step;
    if sch == [] {
      assert sch + [(t, op)] == [(t, op)];
    } else {
      assert (sch + [(t, op)])[1..] == sch[1..] + [(t, op)];
      ExecMore(c, pub, guarded, Step(c, pub, guarded, s, sch[0].0, sch[0].1), sch[1..], t, op);
    }
  }

  /** Extends a schedule by n moves of one thread. */
  function Moves(sch: Schedule, t: Tid, op: Op, n: nat): Schedule {
    if n == 0 then sch else Moves(sch, t, op, n - 1) + [(t, op)]
  }

  /** The state after n unguarded moves of thread t alone. */
  function Ahead(c: Crypto, pub: Key, x: State, t: Tid, op: Op, n: nat): State {
    if n == 0 then x else Step(c, pub, false, Ahead(c, pub, x, t, op, n - 1), t, op)
  }

  lemma {:induction false} ExecMoves(c: Crypto, pub: Key, s: State, sch: Schedule, t: Tid, op: Op, n: nat)
    ensures Exec(c, pub, false, s, Moves(sch, t, op, n)) == Ahead(c, pub, Exec(c, pub, false, s, sch), t, op, n)
  {
    if n == 0 {
    } else {
      ExecMoves(c, pub, s, sch, t, op, n - 1);
      ExecMore(c, pub, false, s, Moves(sch, t, op, n - 1), t, op);
    }
  }

  /** Five unguarded moves bring an appending thread to just before its store. */
  lemma AppendUpToStore(c: Crypto, pub: Key, x: State, t: Tid, a: Request)
    requires KeyPair(c, a.priv, pub)
    requires t in x.threads && x.threads[t].Idle? && x.lock.None?
    ensures NextEntry(c, pub, x.entries, a).Some?
    ensures Ahead(c, pub, x, t, OpAppend(a), 5)
            == x.(threads := x.threads[t := SliceRead(OpAppend(a), NextEntry(c, pub, x.entries, a).value, x.entries)])
  {
    hide CanonicalBytes, PrevOf;
    var op := OpAppend(a);
    var x1 := Ahead(c, pub, x, t, op, 1);
    assert x1 == Step(c, pub, false, Ahead(c, pub, x, t, op, 0), t, op);
    assert x1 == x.(threads := x.threads[t := Waiting(op)]);
    var x2 := Ahead(c, pub, x, t, op, 2);
    assert x2 == x.(threads := x.threads[t := Entered(op)]);
    var x3 := Ahead(c, pub, x, t, op, 3);
    assert x3.threads[t] == TailRead(op, |x.entries|, PrevOf(c, x.entries, |x.entries|));
    var x4 := Ahead(c, pub, x, t, op, 4);
    assert x4.threads[t] == Built(op, NextEntry(c, pub, x.entries, a));
  }

  const TWO_IDLE := State(None, [], map[0 := Idle, 1 := Idle])

  /** Two unguarded appends can both report success with Seq 0 and leave one entry. */
  lemma UnguardedLosesWrite(c: Crypto, pub: Key, a: Request, b: Request) returns (sch: Schedule)
    requires KeyPair(c, a.priv, pub) && KeyPair(c, b.priv, pub)
    ensures var s' := Exec(c, pub, false, TWO_IDLE, sch);
            var ea, eb := NextEntry(c, pub, [], a), NextEntry(c, pub, [], b);
            && |s'.entries| == 1 && 0 in s'.threads && 1 in s'.threads
            && s'.threads[0] == Finished(OpAppend(a), Appended(ea))
            && s'.threads[1] == Finished(OpAppend(b), Appended(eb))
            && ea.Some? && eb.Some? && ea.value.record.seqNo == eb.value.record.seqNo == 0
  {
    hide CanonicalBytes, PrevOf;
    var first := Moves([], 0, OpAppend(a), 5);
    var both := Moves(first, 1, OpAppend(b), 5);
    ExecMoves(c, pub, TWO_IDLE, [], 0, OpAppend(a), 5);
    AppendUpToStore(c, pub, TWO_IDLE, 0, a);
    ExecMoves(c, pub, TWO_IDLE, first, 1, OpAppend(b), 5);
    AppendUpToStore(c, pub, Exec(c, pub, false, TWO_IDLE, first), 1, b);
    ExecMore(c, pub, false, TWO_IDLE, both, 0, OpAppend(a));
    sch := both + [(0, OpAppend(a))];
    ExecMore(c, pub, false, TWO_IDLE, sch, 1, OpAppend(b));
    sch := sch + [(1, OpAppend(b))];
  }

  /** Four unguarded moves of Encode on an empty log: root taken, body not yet read. */
  lemma EncodeUpToBody(c: Crypto, pub: Key)
    ensures Ahead(c, pub, TWO_IDLE, 0, OpEncode, 4)
            == TWO_IDLE.(threads := TWO_IDLE.threads[0 := Copying(OpEncode, RootOf(c, []), [])])
  {
    hide MerkleRoot, CanonicalBytes;
    var x := TWO_IDLE;
    assert Ahead(c, pub, x, 0, OpEncode, 0) == x;
    assert Ahead(c, pub, x, 0, OpEncode, 1) == x.(threads := x.threads[0 := Waiting(OpEncode)]);
    assert Ahead(c, pub, x, 0, OpEncode, 2) == x.(threads := x.threads[0 := Entered(OpEncode)]);
    assert Ahead(c, pub, x, 0, OpEncode, 3) == x.(threads := x.threads[0 := Collecting(OpEncode, [])]);
    assert Leaves([]) == [];
  }

  /** Its last two moves, if one entry has been stored meanwhile. */
  lemma EncodeBody(c: Crypto, pub: Key, x: State, root: Digest)
    requires |x.entries| == 1 && 0 in x.threads && x.threads[0] == Copying(OpEncode, root, [])
    ensures var y := Ahead(c, pub, x, 0, OpEncode, 2);
            y.entries == x.entries && 0 in y.threads && y.threads[0] == Finished(OpEncode, Snapshot(root, x.entries))
  {
    assert Ahead(c, pub, x, 0, OpEncode, 0) == x;
    assert [] + [x.entries[0]] == x.entries;
    assert Ahead(c, pub, x, 0, OpEncode, 1) == x.(threads := x.threads[0 := Copying(OpEncode, root, x.entries)]);
  }

  /** An unguarded Encode can pair the root of no records with a body of one. */
  lemma UnguardedTearsSnapshot(c: Crypto, pub: Key, a: Request) returns (sch: Schedule)
    requires KeyPair(c, a.priv, pub)
    ensures var s' := Exec(c, pub, false, TWO_IDLE, sch);
            && |s'.entries| == 1 && 0 in s'.threads
            && s'.threads[0] == Finished(OpEncode, Snapshot(RootOf(c, []), s'.entries))
  {
    hide Exec, Ahead, Moves, RootOf, NextEntry;
    var root := Moves([], 0, OpEncode, 4);
    ExecMoves(c, pub, TWO_IDLE, [], 0, OpEncode, 4);
    assert Exec(c, pub, false, TWO_IDLE, []) == TWO_IDLE by { ExecNone(c, pub, TWO_IDLE); }
    EncodeUpToBody(c, pub);
    var x := Exec(c, pub, false, TWO_IDLE, root);
    var built := Moves(root, 1, OpAppend(a), 5);
    ExecMoves(c, pub, TWO_IDLE, root, 1, OpAppend(a), 5);
    AppendUpToStore(c, pub, x, 1, a);
    ExecMore(c, pub, false, TWO_IDLE, built, 1, OpAppend(a));
    var stored := built + [(1, OpAppend(a))];
    ExecMoves(c, pub, TWO_IDLE, stored, 0, OpEncode, 2);
    EncodeBody(c, pub, Exec(c, pub, false, TWO_IDLE, stored), RootOf(c, []));
    sch := Moves(stored, 0, OpEncode, 2);
  }

  lemma ExecNone(c: Crypto, pub: Key, s: State)
    ensures Exec(c, pub, false, s, []) == s
  {
  }
}
