/** The hash-chained log of translog/log.go: its operations on values, and the Log object. */
module TransLog {
  import opened Bytes
  import opened Merkle
  import opened Record

  datatype Entry = Entry(record: Rec, signature: seq<byte>)

  /** What a caller hands to Append. */
  datatype Request = Request(priv: Key, decision: byte, binding: Digest, issuedAt: int64)

  /** PrevHash of the record at index i. */
  function PrevOf(c: Crypto, es: seq<Entry>, i: nat): Digest
    requires i <= |es|
  {
    if i == 0 then Zero() else HashOf(c, es[i - 1].record)
  }

  function NextRecord(c: Crypto, es: seq<Entry>, a: Request): Rec {
    Rec(|es| % TWO64, a.decision, a.binding, a.issuedAt, PrevOf(c, es, |es|))
  }

  /** The signed next entry, if it passes self-verification. */
  function NextEntry(c: Crypto, pub: Key, es: seq<Entry>, a: Request): Option<Entry> {
    var r := NextRecord(c, es, a);
    var sig := Sign(c, a.priv, r);
    if VerifySig(c, pub, r, sig) then Some(Entry(r, sig)) else None
  }

  /** The log after one Append. */
  function Append(c: Crypto, pub: Key, es: seq<Entry>, a: Request): seq<Entry> {
    match NextEntry(c, pub, es, a)
    case Some(e) => es + [e]
    case None => es
  }

  function Leaves(es: seq<Entry>): (ls: seq<Leaf>)
    ensures |ls| == |es|
  {
    seq(|es|, i requires 0 <= i < |es| => CanonicalBytes(es[i].record))
  }

  function RootOf(c: Crypto, es: seq<Entry>): Digest { MerkleRoot(c.hash, Leaves(es)) }

  function ProofOf(c: Crypto, es: seq<Entry>, i: int): Option<seq<Digest>> {
    InclusionProof(c.hash, Leaves(es), i)
  }

  function RecordAt(es: seq<Entry>, i: int): Option<Rec> {
    if i < 0 || i >= |es| then None else Some(es[i].record)
  }

  // ----- soundness of a whole log

  datatype Fault = SequenceGap | BrokenChain | BadSignature

  /** What Verify finds wrong at index i, checks in source order. */
  function FaultAt(c: Crypto, pub: Key, es: seq<Entry>, i: nat): Option<Fault>
    requires i < |es|
  {
    if es[i].record.seqNo != i % TWO64 then Some(SequenceGap)
    else if es[i].record.prevHash != PrevOf(c, es, i) then Some(BrokenChain)
    else if !VerifySig(c, pub, es[i].record, es[i].signature) then Some(BadSignature)
    else None
  }

  /** Contiguous, chained and signed throughout. */
  ghost predicate Sound(c: Crypto, pub: Key, es: seq<Entry>) {
    forall i :: 0 <= i < |es| ==> FaultAt(c, pub, es, i).None?
  }

  /** The first fault in log order. */
  function FirstFault(c: Crypto, pub: Key, es: seq<Entry>, from: nat): (f: Option<Fault>)
    requires from <= |es|
    decreases |es| - from
  {
    if from == |es| then None
    else if FaultAt(c, pub, es, from).Some? then FaultAt(c, pub, es, from)
    else FirstFault(c, pub, es, from + 1)
  }

  lemma {:induction false} FirstFaultIsFirst(c: Crypto, pub: Key, es: seq<Entry>, from: nat)
    requires from <= |es|
    ensures FirstFault(c, pub, es, from).None? <==> forall i :: from <= i < |es| ==> FaultAt(c, pub, es, i).None?
    ensures FirstFault(c, pub, es, from).Some? ==>
              exists i :: from <= i < |es| && FaultAt(c, pub, es, i) == FirstFault(c, pub, es, from)
                          && forall j :: from <= j < i ==> FaultAt(c, pub, es, j).None?
    decreases |es| - from
  {
    hide FaultAt;
    if from == |es| {
    } else {
      FirstFaultIsFirst(c, pub, es, from + 1);
    }
  }

  // The three conditions on record i, in terms of the hash and signature functions alone.

  ghost predicate Numbered(es: seq<Entry>, i: nat)
    requires i < |es|
  {
    es[i].record.seqNo == i % TWO64
  }

  /** It carries the hash of the record before it; 32 zero bytes if there is none. */
  ghost predicate Linked(c: Crypto, es: seq<Entry>, i: nat)
    requires i < |es|
  {
    if i == 0 then forall k :: 0 <= k < 32 ==> es[0].record.prevHash[k] == 0
    else es[i].record.prevHash == c.hash(CanonicalBytes(es[i - 1].record))
  }

  /** The log's key accepts the signature stored with it. */
  ghost predicate Signed(c: Crypto, pub: Key, es: seq<Entry>, i: nat)
    requires i < |es|
  {
    c.verify(pub, CanonicalBytes(es[i].record), es[i].signature)
  }

  ghost predicate Genuine(c: Crypto, pub: Key, es: seq<Entry>, i: nat)
    requires i < |es|
  {
    Numbered(es, i) && Linked(c, es, i) && Signed(c, pub, es, i)
  }

  /** Which condition each fault says record i fails, the earlier ones holding. */
  ghost predicate Fails(c: Crypto, pub: Key, es: seq<Entry>, i: nat, f: Fault)
    requires i < |es|
  {
    match f
    case SequenceGap => !Numbered(es, i)
    case BrokenChain => Numbered(es, i) && !Linked(c, es, i)
    case BadSignature => Numbered(es, i) && Linked(c, es, i) && !Signed(c, pub, es, i)
  }

  ghost predicate AllGenuine(c: Crypto, pub: Key, es: seq<Entry>) {
    forall i :: 0 <= i < |es| ==> Genuine(c, pub, es, i)
  }

  /** f says what is wrong with the first record that is not genuine. */
  ghost predicate FirstFailure(c: Crypto, pub: Key, es: seq<Entry>, f: Fault) {
    exists i :: 0 <= i < |es| && Fails(c, pub, es, i, f) && forall j :: 0 <= j < i ==> Genuine(c, pub, es, j)
  }

  lemma FaultMeans(c: Crypto, pub: Key, es: seq<Entry>, i: nat)
    requires i < |es|
    ensures FaultAt(c, pub, es, i).None? <==> Genuine(c, pub, es, i)
    ensures forall f :: FaultAt(c, pub, es, i) == Some(f) <==> Fails(c, pub, es, i, f)
  {
    hide CanonicalBytes, Zero;
    var prev := es[i].record.prevHash;
    if i == 0 && forall k :: 0 <= k < 32 ==> prev[k] == 0 {
      assert prev == Zero();
    }
  }

  /** A log is sound exactly when every record is numbered, linked and signed. */
  lemma SoundMeans(c: Crypto, pub: Key, es: seq<Entry>)
    ensures Sound(c, pub, es) <==> AllGenuine(c, pub, es)
  {
    hide FaultAt, Genuine;
    forall i | 0 <= i < |es| ensures FaultAt(c, pub, es, i).None? <==> Genuine(c, pub, es, i) {
      FaultMeans(c, pub, es, i);
    }
  }

  /**
   What Verify answers: nothing exactly when every record is numbered, linked and signed, and
   otherwise the failing condition of the first record for which one fails.
   */
  lemma VerifyExactly(c: Crypto, pub: Key, es: seq<Entry>)
    ensures var f := FirstFault(c, pub, es, 0);
            && (f.None? <==> AllGenuine(c, pub, es))
            && (f.Some? ==> FirstFailure(c, pub, es, f.value))
  {
    hide FaultAt, Genuine, Fails, FirstFault;
    FirstFaultIsFirst(c, pub, es, 0);
    forall i | 0 <= i < |es|
      ensures FaultAt(c, pub, es, i).None? <==> Genuine(c, pub, es, i)
      ensures forall f :: FaultAt(c, pub, es, i) == Some(f) <==> Fails(c, pub, es, i, f)
    {
      FaultMeans(c, pub, es, i);
    }
  }

  lemma AppendKeepsSound(c: Crypto, pub: Key, es: seq<Entry>, a: Request)
    requires Sound(c, pub, es)
    ensures Sound(c, pub, Append(c, pub, es, a))
  {
    hide CanonicalBytes;
    var es' := Append(c, pub, es, a);
    forall i | 0 <= i < |es'| ensures FaultAt(c, pub, es', i).None? {
      if i < |es| {
        assert FaultAt(c, pub, es', i) == FaultAt(c, pub, es, i);
      }
    }
  }

  // ----- the object

  class Log {
    const c: Crypto
    const pub: Key
    var entries: seq<Entry>

    constructor (c: Crypto, pub: Key)
      ensures this.c == c && this.pub == pub && entries == []
    {
      this.c, this.pub, this.entries := c, pub, [];
    }

    /** ReadLog's struct literal. */
    constructor Of(c: Crypto, pub: Key, entries: seq<Entry>)
      ensures this.c == c && this.pub == pub && this.entries == entries
    {
      this.c, this.pub, this.entries := c, pub, entries;
    }

    method AppendEntry(a: Request) returns (r: Option<Entry>)
      modifies this`entries
      ensures r == NextEntry(c, pub, old(entries), a)
      ensures entries == Append(c, pub, old(entries), a)
      ensures old(Sound(c, pub, entries)) ==> Sound(c, pub, entries)
    {
      hide CanonicalBytes, FaultAt;
      if Sound(c, pub, entries) {
        AppendKeepsSound(c, pub, entries, a);
      }
      var prev := Zero();
      var n := |entries|;
      if n > 0 {
        prev := HashOf(c, entries[n - 1].record);
      }
      var rec := Rec(n % TWO64, a.decision, a.binding, a.issuedAt, prev);
      var sig := Sign(c, a.priv, rec);
      if !VerifySig(c, pub, rec, sig) {
        return None;
      }
      var e := Entry(rec, sig);
      entries := entries + [e];
      return Some(e);
    }

    method CanonicalLeaves() returns (out: seq<Leaf>)
      ensures out == Leaves(entries)
    {
      hide CanonicalBytes;
      out := [];
      for i := 0 to |entries|
        invariant |out| == i && forall k :: 0 <= k < i ==> out[k] == CanonicalBytes(entries[k].record)
      {
        var b := BuildCanonicalBytes(entries[i].record);
        out := out + [b];
      }
    }

    method Len() returns (n: nat)
      ensures n == |entries|
    {
      n := |entries|;
    }

    method At(i: int) returns (r: Option<Rec>)
      ensures r == RecordAt(entries, i)
      ensures r.Some? <==> 0 <= i < |entries|
    {
      if i < 0 || i >= |entries| {
        return None;
      }
      return Some(entries[i].record);
    }

    method Root() returns (r: Digest)
      ensures r == RootOf(c, entries)
    {
      var ls := CanonicalLeaves();
      r := MerkleRoot(c.hash, ls);
    }

    method Proof(i: int) returns (p: Option<seq<Digest>>)
      ensures p == ProofOf(c, entries, i)
    {
      var ls := CanonicalLeaves();
      p := InclusionProof(c.hash, ls, i);
    }

    method Verify() returns (f: Option<Fault>)
      ensures f == FirstFault(c, pub, entries, 0)
      ensures f.None? <==> Sound(c, pub, entries)
      ensures f.None? <==> AllGenuine(c, pub, entries)
      ensures f.Some? ==> FirstFailure(c, pub, entries, f.value)
    {
      hide CanonicalBytes, HashOf, Zero, AllGenuine, FirstFailure;
      SoundMeans(c, pub, entries);
      VerifyExactly(c, pub, entries);
      var prev := Zero();
      for i := 0 to |entries|
        invariant prev == PrevOf(c, entries, i)
        invariant FirstFault(c, pub, entries, i) == FirstFault(c, pub, entries, 0)
      {
        var e := entries[i];
        if e.record.seqNo != i % TWO64 { return Some(SequenceGap); }
        if e.record.prevHash != prev { return Some(BrokenChain); }
        if !VerifySig(c, pub, e.record, e.signature) { return Some(BadSignature); }
        prev := HashOf(c, e.record);
      }
      return None;
    }
  }
}

/** Theorems about whole logs and whole runs of Append. */
module LogTheorems {
  import opened Bytes
  import opened Hashing
  import opened Merkle
  import MV = MerkleView
  import MT = MerkleTheorems
  import opened Record
  import opened TransLog

  // ----- runs of Append

  /** The log after a run of Appends, each succeeding or failing. */
  function Run(c: Crypto, pub: Key, es: seq<Entry>, reqs: seq<Request>): seq<Entry> {
    if reqs == [] then es else Append(c, pub, Run(c, pub, es, reqs[..|reqs| - 1]), reqs[|reqs| - 1])
  }

  /** Every run from a sound log stays sound, and earlier logs are prefixes of later ones. */
  lemma {:induction false} RunSound(c: Crypto, pub: Key, es: seq<Entry>, reqs: seq<Request>, k: nat)
    requires Sound(c, pub, es) && k <= |reqs|
    ensures Sound(c, pub, Run(c, pub, es, reqs))
    ensures Run(c, pub, es, reqs[..k]) <= Run(c, pub, es, reqs)
    decreases |reqs|
  {
    hide Sound, NextEntry;
    if k == |reqs| {
      assert reqs[..k] == reqs;
    }
    if reqs == [] {
    } else {
      var init := reqs[..|reqs| - 1];
      if k < |reqs| {
        RunSound(c, pub, es, init, k);
        TakeOfTake(reqs, k, |reqs| - 1);
      } else {
        RunSound(c, pub, es, init, 0);
      }
      AppendKeepsSound(c, pub, Run(c, pub, es, init), reqs[|reqs| - 1]);
    }
  }

  /** A matching key makes every Append of a run succeed: one entry per request, in order. */
  lemma {:induction false} MatchingKeyRun(c: Crypto, pub: Key, es: seq<Entry>, reqs: seq<Request>)
    requires forall i :: 0 <= i < |reqs| ==> KeyPair(c, reqs[i].priv, pub)
    ensures |Run(c, pub, es, reqs)| == |es| + |reqs|
    ensures forall i :: 0 <= i < |reqs| ==>
                          var r := Run(c, pub, es, reqs)[|es| + i].record;
                          && r.decision == reqs[i].decision && r.binding == reqs[i].binding
                          && r.issuedAt == reqs[i].issuedAt
  {
    hide CanonicalBytes, PrevOf;
    if reqs == [] {
    } else {
      MatchingKeyRun(c, pub, es, reqs[..|reqs| - 1]);
    }
  }

  lemma LeavesPrefix(es: seq<Entry>, n: nat)
    requires n <= |es|
    ensures Leaves(es[..n]) == Leaves(es)[..n]
  {
    hide CanonicalBytes;
  }

  /** A proof taken after k requests verifies against the root of the first n records of any later log. */
  lemma OldProofsStillVerify(c: Crypto, pub: Key, es: seq<Entry>, reqs: seq<Request>, k: nat, i: int)
    requires Sound(c, pub, es) && k <= |reqs|
    ensures var earlier := Run(c, pub, es, reqs[..k]);
            var later := Run(c, pub, es, reqs);
            var n := |earlier|;
            && n <= |later|
            && (0 <= i < n ==>
                  && ProofOf(c, earlier, i).Some?
                  && VerifyInclusion(c.hash, RootOf(c, later[..n]), CanonicalBytes(later[i].record), i, n,
                                     ProofOf(c, earlier, i).value))
  {
    RunSound(c, pub, es, reqs, k);
    var earlier := Run(c, pub, es, reqs[..k]);
    var later := Run(c, pub, es, reqs);
    assert later[..|earlier|] == earlier;
    if 0 <= i < |earlier| {
      MT.InclusionComplete(c.hash, Leaves(earlier), i);
    }
  }

  // ----- the chain

  function Records(es: seq<Entry>): (rs: seq<Rec>)
    ensures |rs| == |es|
  {
    seq(|es|, i requires 0 <= i < |es| => es[i].record)
  }

  lemma RecordsInit(es: seq<Entry>)
    requires es != []
    ensures Records(es) == Records(es[..|es| - 1]) + [es[|es| - 1].record]
  {
  }

  /** The strings hashed to link the chain. */
  function ChainInputs(es: seq<Entry>): set<seq<byte>> {
    set i | 0 <= i < |es| :: CanonicalBytes(es[i].record)
  }

  lemma SoundPrefix(c: Crypto, pub: Key, es: seq<Entry>, n: nat)
    requires Sound(c, pub, es) && n <= |es|
    ensures Sound(c, pub, es[..n])
  {
    forall i | 0 <= i < n ensures FaultAt(c, pub, es[..n], i).None? {
      assert FaultAt(c, pub, es[..n], i) == FaultAt(c, pub, es, i);
    }
  }

  /**
   Two sound logs whose last record hashes agree hold the same records throughout, or two
   chained records collide. A Go slice length fits in 63 bits, so sequence numbers do not wrap.
   */
  lemma {:induction false} HeadDeterminesHistory(c: Crypto, p: Key, q: Key, a: seq<Entry>, b: seq<Entry>)
    requires Sound(c, p, a) && Sound(c, q, b) && 0 < |a| < TWO63 && 0 < |b| < TWO63
    requires PrevOf(c, a, |a|) == PrevOf(c, b, |b|)
    ensures Records(a) == Records(b) || Collides(c.hash, ChainInputs(a), ChainInputs(b))
    decreases |a|
  {
    hide CanonicalBytes, Collides;
    var r, s := a[|a| - 1].record, b[|b| - 1].record;
    var x, y := CanonicalBytes(r), CanonicalBytes(s);
    if x != y {
      assert x in ChainInputs(a) && y in ChainInputs(b);
      CollisionFound(c.hash, ChainInputs(a), ChainInputs(b), x, y);
    } else {
      CanonicalInjective(r, s);
      assert FaultAt(c, p, a, |a| - 1).None? && FaultAt(c, q, b, |b| - 1).None?;
      assert |a| == |b|;
      RecordsInit(a);
      RecordsInit(b);
      if |a| == 1 {
      } else {
        var a', b' := a[..|a| - 1], b[..|b| - 1];
        SoundPrefix(c, p, a, |a| - 1);
        SoundPrefix(c, q, b, |b| - 1);
        assert ChainInputs(a') <= ChainInputs(a) && ChainInputs(b') <= ChainInputs(b);
        HeadDeterminesHistory(c, p, q, a', b');
        if Collides(c.hash, ChainInputs(a'), ChainInputs(b')) {
          CollidesMonotone(c.hash, ChainInputs(a'), ChainInputs(b'), ChainInputs(a), ChainInputs(b));
        }
      }
    }
  }

  lemma LeavesDetermineRecords(a: seq<Entry>, b: seq<Entry>)
    requires Leaves(a) == Leaves(b)
    ensures Records(a) == Records(b)
  {
    hide CanonicalBytes;
    forall i | 0 <= i < |a| ensures a[i].record == b[i].record {
      assert Leaves(a)[i] == Leaves(b)[i];
      CanonicalInjective(a[i].record, b[i].record);
    }
  }

  /** Equal Merkle roots mean the same records in the same order, or a collision. */
  lemma RootDeterminesRecords(c: Crypto, a: seq<Entry>, b: seq<Entry>)
    requires RootOf(c, a) == RootOf(c, b)
    ensures Records(a) == Records(b)
            || Collides(c.hash, MV.TreeInputs(c.hash, Leaves(a)), MV.TreeInputs(c.hash, Leaves(b)))
  {
    MT.RootBinding(c.hash, Leaves(a), Leaves(b));
    if Leaves(a) == Leaves(b) {
      LeavesDetermineRecords(a, b);
    }
  }

  /** Dropping records from the end goes unnoticed by the chain and is noticed by the root. */
  lemma TruncationOnlyRootNotices(c: Crypto, pub: Key, es: seq<Entry>, n: nat)
    requires Sound(c, pub, es) && n < |es|
    ensures Sound(c, pub, es[..n])
    ensures RootOf(c, es[..n]) != RootOf(c, es)
            || Collides(c.hash, MV.TreeInputs(c.hash, Leaves(es[..n])), MV.TreeInputs(c.hash, Leaves(es)))
  {
    SoundPrefix(c, pub, es, n);
    if RootOf(c, es[..n]) == RootOf(c, es) {
      RootDeterminesRecords(c, es[..n], es);
    }
  }
}
