/**
 The entry endpoint of gateway/transparency.go. The handler reads the log in separate
 critical sections (At, Proof, Root, Len twice), between which other requests may append.
 */
module Transparency {
  import opened Bytes
  import opened Hashing
  import opened Merkle
  import MV = MerkleView
  import MT = MerkleTheorems
  import opened Record
  import opened TransLog
  import opened LogTheorems

  datatype Response =
    | NotFound
    | ProofError
    | Proof(seqNo: int, size: nat, root: Digest, leaf: Leaf, path: seq<Digest>, verified: bool)

  /** The lengths the log had at the five reads; it only grows. */
  datatype Sizes = Sizes(record: nat, proof: nat, root: nat, size: nat, check: nat)

  predicate Growing(z: Sizes, es: seq<Entry>) {
    z.record <= z.proof <= z.root <= z.size <= z.check <= |es|
  }

  /** The response, when the reads saw these prefixes of the final log. */
  function Respond(c: Crypto, es: seq<Entry>, z: Sizes, i: int): Response
    requires Growing(z, es)
  {
    match RecordAt(es[..z.record], i)
    case None => NotFound
    case Some(rec) =>
      match ProofOf(c, es[..z.proof], i)
      case None => ProofError
      case Some(path) =>
        var root := RootOf(c, es[..z.root]);
        var leaf := CanonicalBytes(rec);
        Proof(i, z.size, root, leaf, path, VerifyInclusion(c.hash, root, leaf, i, z.check, path))
  }

  /** The handler over a log that does not change while it reads. */
  method Handle(l: Log, i: int) returns (r: Response)
    ensures r == Respond(l.c, l.entries, Sizes(|l.entries|, |l.entries|, |l.entries|, |l.entries|, |l.entries|), i)
  {
    assert l.entries[..|l.entries|] == l.entries;
    var rec := l.At(i);
    if rec.None? { return NotFound; }
    var proof := l.Proof(i);
    if proof.None? { return ProofError; }
    var root := l.Root();
    var leaf := BuildCanonicalBytes(rec.value);
    var size := l.Len();
    var check := l.Len();
    return Proof(i, size, root, leaf, proof.value, VerifyInclusion(l.c.hash, root, leaf, i, check, proof.value));
  }

  /** With no append between the reads, every valid sequence number is answered as verified. */
  lemma QuietReadVerifies(c: Crypto, es: seq<Entry>, n: nat, i: int)
    requires n <= |es|
    ensures var r := Respond(c, es, Sizes(n, n, n, n, n), i);
            if 0 <= i < n
            then r.Proof? && r.verified && r.seqNo == i && r.size == n && r.leaf == CanonicalBytes(es[i].record)
            else r.NotFound?
  {
    if 0 <= i < n {
      MT.InclusionComplete(c.hash, Leaves(es[..n]), i);
    }
  }

  /** Leaves of a sound log differ, since each carries its own sequence number. */
  lemma LeavesDistinct(c: Crypto, pub: Key, es: seq<Entry>, i: nat, j: nat)
    requires Sound(c, pub, es) && |es| < TWO63 && i < |es| && j < |es|
    requires Leaves(es)[i] == Leaves(es)[j]
    ensures i == j
  {
    hide CanonicalBytes;
    CanonicalInjective(es[i].record, es[j].record);
    assert FaultAt(c, pub, es, i).None? && FaultAt(c, pub, es, j).None?;
  }

  /** Two of the strings hashed for the three values read collide. */
  ghost predicate ReadsCollide(c: Crypto, es: seq<Entry>, z: Sizes, i: nat)
    requires Growing(z, es) && i < z.record
  {
    var leaves := Leaves(es);
    var before, after := MV.TreeInputs(c.hash, leaves[..z.proof]), MV.TreeInputs(c.hash, leaves[..z.root]);
    var path := AuditPath(c.hash, i, leaves[..z.proof]);
    Collides(c.hash, before, after) || Collides(c.hash, after, MV.PathInputs(c.hash, i, z.check, leaves[i], path))
  }

  lemma ResponseValues(c: Crypto, es: seq<Entry>, z: Sizes, i: nat)
    requires Growing(z, es) && i < z.record
    ensures var r := Respond(c, es, z, i);
            var leaves := Leaves(es);
            && r.Proof? && r.seqNo == i && r.size == z.size && r.leaf == leaves[i]
            && r.root == MerkleRoot(c.hash, leaves[..z.root])
            && r.path == AuditPath(c.hash, i, leaves[..z.proof])
            && r.verified == VerifyInclusion(c.hash, r.root, r.leaf, i, z.check, r.path)
  {
    hide CanonicalBytes, MerkleRoot, AuditPath, VerifyInclusion;
    LeavesPrefix(es, z.proof);
    LeavesPrefix(es, z.root);
  }

  /**
   Exactly when the answer says verified, whatever was appended between the reads: the log
   did not grow between Proof and Root, and growth before the last Len left the entry's
   position in the tree alone. Any other verified answer exhibits a collision.
   */
  lemma VerifiedExactly(c: Crypto, pub: Key, es: seq<Entry>, z: Sizes, i: nat)
    requires Growing(z, es) && i < z.record && Sound(c, pub, es) && |es| < TWO63
    ensures var r := Respond(c, es, z, i);
            var settled := z.proof == z.root && Turns(i, z.root) == Turns(i, z.check);
            && r.Proof? && r.seqNo == i && r.size == z.size
            && (settled ==> r.verified)
            && (r.verified ==> settled || ReadsCollide(c, es, z, i))
  {
    hide CanonicalBytes, MerkleRoot, AuditPath, Turns, Respond, Collides, Sound;
    var leaves := Leaves(es);
    var seen, path := leaves[..z.root], AuditPath(c.hash, i, leaves[..z.proof]);
    ResponseValues(c, es, z, i);
    if Respond(c, es, z, i).verified && !ReadsCollide(c, es, z, i) {
      var k := MT.AcceptedIsLocated(c.hash, seen, i, z.check, leaves[i], path);
      LeavesDistinct(c, pub, es, i, k);
      if z.proof < z.root {
        TakeOfTake(leaves, z.proof, z.root);
        MT.GrowthChangesPath(c.hash, seen, z.proof, i);
      }
    }
    if z.proof == z.root && Turns(i, z.root) == Turns(i, z.check) {
      MT.TurnsAccepted(c.hash, seen, i, i, z.check);
    }
  }

  /** The simplest race: one entry at Proof, two at Root and Len, is never verified, for any hash. */
  lemma GrowthFromOneToTwo(c: Crypto, es: seq<Entry>)
    requires |es| == 2
    ensures var r := Respond(c, es, Sizes(1, 1, 2, 2, 2), 0);
            r.Proof? && !r.verified
  {
    ResponseValues(c, es, Sizes(1, 1, 2, 2, 2), 0);
  }

  // ----- the root endpoint

  datatype RootResponse = RootResponse(size: nat, root: Digest)

  /** Root, then Len, as separate critical sections that saw these prefixes of the final log. */
  function RespondRoot(c: Crypto, es: seq<Entry>, atRoot: nat, atLen: nat): RootResponse
    requires atRoot <= atLen <= |es|
  {
    RootResponse(|es[..atLen]|, RootOf(c, es[..atRoot]))
  }

  method HandleRoot(l: Log) returns (r: RootResponse)
    ensures r == RespondRoot(l.c, l.entries, |l.entries|, |l.entries|)
  {
    assert l.entries[..|l.entries|] == l.entries;
    var root := l.Root();
    var size := l.Len();
    return RootResponse(size, root);
  }

  /** The answer pairs a size with the root of that many records exactly when nothing was appended in between. */
  lemma RootMatchesSizeExactly(c: Crypto, es: seq<Entry>, atRoot: nat, atLen: nat)
    requires atRoot <= atLen <= |es|
    ensures var r := RespondRoot(c, es, atRoot, atLen);
            && r.size == atLen
            && (atRoot == atLen ==> r.root == RootOf(c, es[..r.size]))
            && (r.root == RootOf(c, es[..r.size]) ==>
                  atRoot == atLen
                  || Collides(c.hash, MV.TreeInputs(c.hash, Leaves(es[..atRoot])),
                              MV.TreeInputs(c.hash, Leaves(es[..atLen]))))
  {
    if RootOf(c, es[..atRoot]) == RootOf(c, es[..atLen]) {
      RootDeterminesRecords(c, es[..atRoot], es[..atLen]);
    }
  }
}
