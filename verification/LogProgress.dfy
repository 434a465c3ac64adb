/**
 Progress of the Log's callers (translog/log.go): the mutex is always released after a number
 of steps bounded by the length of the log, and no state is a deadlock.
 */
module LogProgress {
  import opened Bytes
  import opened AtomicObject
  import opened Merkle
  import opened Record
  import opened TransLog
  import opened LogConcurrency

  /** How many of n are left after k. */
  function Left(n: nat, k: nat): nat {
    if k < n then n - k else 0
  }

  /** Steps a thread that is not waiting for the mutex still needs, at most, over a log of n entries. */
  function Work(n: nat, pc: PC): nat {
    match pc
    case Idle => 0
    case Waiting(op) => 1 + Whole(n, op)
    case Entered(op) => Whole(n, op)
    case TailRead(_, _, _) => 5
    case Built(_, _) => 4
    case SliceRead(_, _, _) => 3
    case Collecting(op, leaves) => Left(n, |leaves|) + (if op.OpEncode? then n + 4 else 3)
    case Copying(_, _, body) => Left(n, |body|) + 3
    case Checking(_, i, _) => Left(n, i) + 3
    case Finished(_, _) => 2
    case Returned(_, _) => 1
  }

  /** Steps from inside the mutex to the end of the call. */
  function Whole(n: nat, op: Op): nat {
    match op
    case OpAppend(_) => 6
    case OpLen => 3
    case OpAt(_) => 3
    case OpEncode => 2 * n + 5
    case _ => n + 4
  }

  /** The bound is linear in the length of the log. */
  lemma WorkBound(n: nat, pc: PC)
    ensures Work(n, pc) <= 2 * n + 7
  {
  }

  /** A call just inside the mutex. */
  lemma EnteredWorks(c: Crypto, pub: Key, es: seq<Entry>, op: Op)
    ensures var (pc', es') := Inside(c, pub, es, Entered(op)); Work(|es'|, pc') < Work(|es|, Entered(op))
  {
    hide PrevOf, RecordAt, Zero;
  }

  lemma InsideWorks(c: Crypto, pub: Key, es: seq<Entry>, pc: PC)
    requires Critical(pc) && !pc.Finished? && Current(c, pub, es, pc)
    ensures var (pc', es') := Inside(c, pub, es, pc); Work(|es'|, pc') < Work(|es|, pc)
  {
    hide CanonicalBytes, PrevOf, RootOf, Leaves, FirstFault, VerifySig, Zero, HashOf, NextEntry, Whole;
    hide MerkleRoot, InclusionProof;
    if pc.Entered? {
      EnteredWorks(c, pub, es, pc.op);
    }
  }

  /** Each step of a thread that has, or can have, the mutex brings its call closer to its end. */
  lemma StepWorks(c: Crypto, pub: Key, s: State, t: Tid, op: Op)
    requires Inv(c, pub, s) && t in s.threads && !s.threads[t].Idle? && (s.lock.None? || s.lock == Some(t))
    ensures var s' := Step(c, pub, true, s, t, op);
            && Inv(c, pub, s')
            && s'.threads == s.threads[t := s'.threads[t]]
            && Work(|s'.entries|, s'.threads[t]) < Work(|s.entries|, s.threads[t])
            && s'.lock == (if Critical(s'.threads[t]) then Some(t) else None)
            && (s'.threads[t].Returned? <==> s.threads[t].Finished?)
            && (Critical(s.threads[t]) && !s.threads[t].Finished? ==> Critical(s'.threads[t]))
  {
    hide Inv, Current, Inside, Work;
    var pc := s.threads[t];
    LockHeld(c, pub, s, t);
    StepRefines(c, pub, s, t, op);
    LockHeld(c, pub, Step(c, pub, true, s, t, op), t);
    if Critical(pc) && !pc.Finished? {
      InsideWorks(c, pub, s.entries, pc);
      InsideRefines(c, pub, s.entries, pc);
    } else {
      EdgeWorks(|s.entries|, pc);
    }
  }

  lemma EdgeWorks(n: nat, pc: PC)
    ensures pc.Waiting? ==> Work(n, Entered(pc.op)) < Work(n, pc)
    ensures pc.Finished? ==> Work(n, Returned(pc.op, pc.res)) < Work(n, pc)
    ensures pc.Returned? ==> Work(n, Idle) < Work(n, pc)
  {
  }

  function MovesOf(sch: Schedule, t: Tid): nat {
    if sch == [] then 0 else (if sch[0].0 == t then 1 else 0) + MovesOf(sch[1..], t)
  }

  /** While t has the mutex, another thread's step leaves the lock, the log and t alone. */
  lemma OthersWait(c: Crypto, pub: Key, s: State, t: Tid, u: Tid, op: Op)
    requires Inv(c, pub, s) && s.lock == Some(t) && t in s.threads && u != t
    ensures var s' := Step(c, pub, true, s, u, op);
            && Inv(c, pub, s') && s'.lock == s.lock && s'.entries == s.entries
            && t in s'.threads && s'.threads[t] == s.threads[t]
  {
    hide Inv, Current, Inside;
    StepRefines(c, pub, s, u, op);
    if u in s.threads {
      LockHeld(c, pub, s, u);
    }
  }

  lemma ExecPrefix(c: Crypto, pub: Key, s: State, sch: Schedule, k: nat)
    requires sch != [] && k < |sch|
    ensures Exec(c, pub, true, s, sch[..k + 1])
            == Exec(c, pub, true, Step(c, pub, true, s, sch[0].0, sch[0].1), sch[1..][..k])
  {
    hide Step;
    assert sch[..k + 1][1..] == sch[1..][..k];
  }

  /** However the others interleave, the holder of the mutex returns before its work is used up. */
  lemma {:induction false} HolderReleases(c: Crypto, pub: Key, s: State, sch: Schedule, t: Tid) returns (k: nat)
    requires Inv(c, pub, s) && s.lock == Some(t) && t in s.threads
    requires MovesOf(sch, t) + 1 >= Work(|s.entries|, s.threads[t])
    ensures k <= |sch|
    ensures var s' := Exec(c, pub, true, s, sch[..k]);
            s'.lock.None? && t in s'.threads && s'.threads[t].Returned?
    decreases |sch|
  {
    hide Inv, Step, Work, Exec;
    LockHeld(c, pub, s, t);
    assert Work(|s.entries|, s.threads[t]) >= 2 by { HolderHasWork(|s.entries|, s.threads[t]); }
    var u, op := sch[0].0, sch[0].1;
    var s' := Step(c, pub, true, s, u, op);
    if u != t {
      OthersWait(c, pub, s, t, u, op);
      k := HolderReleases(c, pub, s', sch[1..], t);
      ExecPrefix(c, pub, s, sch, k);
      k := k + 1;
    } else {
      StepWorks(c, pub, s, t, op);
      ExecPrefix(c, pub, s, sch, 0);
      if s.threads[t].Finished? {
        assert Exec(c, pub, true, s', sch[1..][..0]) == s' by { ExecNothing(c, pub, s', sch[1..][..0]); }
        k := 1;
      } else {
        k := HolderReleases(c, pub, s', sch[1..], t);
        ExecPrefix(c, pub, s, sch, k);
        k := k + 1;
      }
    }
  }

  /**
   In every reachable state in which t has the mutex of a log of n entries, whatever happens next,
   2n + 6 moves of t are enough: at some point before them its call has returned and the mutex
   is free.
   */
  lemma MutexAlwaysReleased(c: Crypto, pub: Key, s: State, sch: Schedule, next: Schedule, t: Tid) returns (k: nat)
    requires AtRest(s) && Exec(c, pub, true, s, sch).lock == Some(t)
    requires MovesOf(next, t) >= 2 * |Exec(c, pub, true, s, sch).entries| + 6
    ensures k <= |next|
    ensures var s' := Exec(c, pub, true, Exec(c, pub, true, s, sch), next[..k]);
            s'.lock.None? && t in s'.threads && s'.threads[t].Returned?
  {
    hide Exec, AtRest, Work;
    RestIsInv(c, pub, s);
    EveryInterleavingRefines(c, pub, s, sch);
    var now := Exec(c, pub, true, s, sch);
    WorkBound(|now.entries|, now.threads[t]);
    k := HolderReleases(c, pub, now, next, t);
  }

  lemma ExecNothing(c: Crypto, pub: Key, s: State, sch: Schedule)
    requires sch == []
    ensures Exec(c, pub, true, s, sch) == s
  {
  }

  lemma HolderHasWork(n: nat, pc: PC)
    requires Critical(pc)
    ensures Work(n, pc) >= 2
  {
  }

  // ----- no deadlock

  lemma {:induction false} ExecThen(c: Crypto, pub: Key, s: State, one: Schedule, two: Schedule)
    ensures Exec(c, pub, true, s, one + two) == Exec(c, pub, true, Exec(c, pub, true, s, one), two)
    decreases |one|
  {
    hide Step;
    if one == [] {
      assert one + two == two;
    } else {
      assert (one + two)[1..] == one[1..] + two;
      ExecThen(c, pub, Step(c, pub, true, s, one[0].0, one[0].1), one[1..], two);
    }
  }

  /** A thread that has, or can have, the mutex can end its call by moving alone. */
  lemma {:induction false} RunToIdle(c: Crypto, pub: Key, s: State, t: Tid) returns (sch: Schedule)
    requires Inv(c, pub, s) && t in s.threads && !s.threads[t].Idle? && (s.lock.None? || s.lock == Some(t))
    ensures var s' := Exec(c, pub, true, s, sch);
            Inv(c, pub, s') && s'.lock.None? && s'.threads == s.threads[t := Idle]
    decreases Work(|s.entries|, s.threads[t])
  {
    hide Inv, Step, Work;
    StepWorks(c, pub, s, t, OpLen);
    var s' := Step(c, pub, true, s, t, OpLen);
    if s'.threads[t].Idle? {
      sch := [(t, OpLen)];
    } else {
      var rest := RunToIdle(c, pub, s', t);
      sch := [(t, OpLen)] + rest;
      assert sch[1..] == rest;
    }
  }

  function Busy(s: State): set<Tid> {
    set t | t in s.threads && !s.threads[t].Idle?
  }

  lemma {:induction false} Drain(c: Crypto, pub: Key, s: State) returns (sch: Schedule)
    requires Inv(c, pub, s)
    ensures AtRest(Exec(c, pub, true, s, sch))
    decreases |Busy(s)|
  {
    hide Exec;
    if s.lock.None? && Busy(s) == {} {
      sch := [];
      assert forall t :: t in s.threads && !s.threads[t].Idle? ==> t in Busy(s);
      ExecNothing(c, pub, s, sch);
    } else {
      var t: Tid;
      if s.lock.Some? {
        t := s.lock.value;
      } else {
        t :| t in Busy(s);
      }
      sch := RunToIdle(c, pub, s, t);
      var s' := Exec(c, pub, true, s, sch);
      assert Busy(s') == Busy(s) - {t};
      var more := Drain(c, pub, s');
      ExecThen(c, pub, s, sch, more);
      sch := sch + more;
    }
  }

  /** No deadlock: from every reachable state every call under way can still be brought to its end. */
  lemma EveryStateDrains(c: Crypto, pub: Key, s: State, sch: Schedule) returns (more: Schedule)
    requires AtRest(s)
    ensures AtRest(Exec(c, pub, true, s, sch + more))
  {
    hide Exec, AtRest, Inv;
    RestIsInv(c, pub, s);
    EveryInterleavingRefines(c, pub, s, sch);
    more := Drain(c, pub, Exec(c, pub, true, s, sch));
    ExecThen(c, pub, s, sch, more);
  }
}
