/** Theorems about the Merkle tree, for every leaf list, index, size and path. */
module MerkleTheorems {
  import opened Bytes
  import opened Hashing
  import opened Merkle
  import opened MerkleView

  // ----- the machine loop

  lemma {:induction false} DoubledIsPow2(i: nat)
    requires i <= 62
    ensures Doubled(i) == Pow2(i)
  {
    Pow2Of62();
    Pow2Monotone(i, 62);
    if i == 0 {
    } else {
      DoubledIsPow2(i - 1);
    }
  }

  lemma Pow2Of62()
    ensures 2 * Pow2(62) == TWO63
  {
    assert Pow2(10) == 1024;
    assert Pow2(20) == 1024 * 1024;
    assert Pow2(30) == 1024 * 1024 * 1024;
    assert Pow2(40) == 1024 * 1024 * 1024 * 1024;
    assert Pow2(50) == 1024 * 1024 * 1024 * 1024 * 1024;
    assert Pow2(60) == 1024 * 1024 * 1024 * 1024 * 1024 * 1024;
  }

  lemma {:induction false} DoubledStaysLow(i: nat)
    ensures Doubled(i) <= Pow2(62)
    ensures i >= 63 ==> Doubled(i) <= 0
  {
    Pow2Of62();
    if i <= 62 {
      DoubledIsPow2(i);
      Pow2Monotone(i, 62);
    } else {
      DoubledStaysLow(i - 1);
      if i == 63 {
        DoubledIsPow2(62);
      } else if i == 64 {
        DoubledIsPow2(62);
        assert Doubled(64) == Shl1(Doubled(63)) == Shl1(Shl1(Doubled(62)));
      } else {
        DoubledZero(i);
      }
    }
  }

  lemma {:induction false} DoubledZero(i: nat)
    requires i >= 64
    ensures Doubled(i) == 0
  {
    Pow2Of62();
    if i == 64 {
      DoubledIsPow2(62);
      assert Doubled(64) == Shl1(Doubled(63)) == Shl1(Shl1(Doubled(62)));
    } else {
      DoubledZero(i - 1);
    }
  }

  /** The machine loop leaves with k >= n. */
  ghost predicate LoopExits(n: int64) {
    exists i: nat :: Doubled(i) >= n
  }

  /** On 64-bit ints the loop leaves with k >= n exactly when n <= 2^62. */
  lemma LoopExitsExactly(n: int64)
    ensures LoopExits(n) <==> n <= Pow2(62)
  {
    DoubledIsPow2(62);
    forall i: nat ensures Doubled(i) <= Pow2(62) {
      DoubledStaysLow(i);
    }
  }

  /** The machine loop leaves after i doublings. */
  ghost predicate LeavesAfter(n: int64, i: nat) {
    Doubled(i) >= n && forall j: nat :: j < i ==> Doubled(j) < n
  }

  lemma {:induction false} SomeExit(n: int64, i: nat)
    requires Doubled(i) >= n
    ensures exists first: nat :: LeavesAfter(n, first)
    decreases i
  {
    hide Doubled;
    if j: nat :| j < i && Doubled(j) >= n {
      SomeExit(n, j);
    } else {
      assert LeavesAfter(n, i);
    }
  }

  lemma ExitHalves(n: int64, i: nat)
    requires n >= 2 && LeavesAfter(n, i)
    ensures Doubled(i) / 2 == Split(n)
  {
    hide Pow2, Split, SplitExponent, Doubled;
    if i > 62 {
      DoubledStaysLow(i);
      assert false;
    }
    DoubledIsPow2(i);
    assert Doubled(0) == 1 by { NoDoubling(); }
    DoubledIsPow2(i - 1);
    Pow2Doubles(i);
    SplitUnique(n, i - 1);
  }

  lemma NoDoubling()
    ensures Doubled(0) == 1
  {
  }

  lemma Pow2Doubles(i: nat)
    requires i > 0
    ensures Pow2(i) == 2 * Pow2(i - 1)
  {
  }

  /** What the machine loop returns when it leaves: k halved at its first exit, which is the split point. */
  ghost function MachineSplit(n: int64): (k: nat)
    requires n >= 2 && LoopExits(n)
    ensures k == Split(n)
  {
    var exit: nat :| Doubled(exit) >= n;
    SomeExit(n, exit);
    var first: nat :| LeavesAfter(n, first);
    ExitHalves(n, first);
    Doubled(first) / 2
  }

  // ----- the inclusion check on machine integers

  /** What rootFromPath does: a root, a refusal, or a loop it never leaves. */
  datatype Rebuilt = Root(d: Digest) | Fails | Loops

  datatype Verdict = Accepts | Rejects | Diverges

  /** rootFromPath over 64-bit ints, largestPow2Below included. */
  ghost function MachineRootFromPath(H: HashFn, m: nat, n: nat, leaf: Digest, path: seq<Digest>): Rebuilt
    requires m < n < TWO63
    decreases n
  {
    if n == 1 then if path != [] then Fails else Root(leaf)
    else if path == [] then Fails
    else if !LoopExits(n) then Loops
    else
      var k := MachineSplit(n);
      var sib, rest := path[|path| - 1], path[..|path| - 1];
      if m < k then
        match MachineRootFromPath(H, m, k, leaf, rest)
        case Root(left) => Root(NodeHash(H, left, sib))
        case other => other
      else
        match MachineRootFromPath(H, m - k, n - k, leaf, rest)
        case Root(right) => Root(NodeHash(H, sib, right))
        case other => other
  }

  /** VerifyInclusion over 64-bit ints. */
  ghost function MachineVerify(H: HashFn, root: Digest, leaf: Leaf, m: int64, size: int64, path: seq<Digest>): Verdict {
    if m < 0 || m >= size then Rejects
    else
      match MachineRootFromPath(H, m, size, LeafHash(H, leaf), path)
      case Loops => Diverges
      case Fails => Rejects
      case Root(d) => if d == root then Accepts else Rejects
  }

  /** Up to 2^62 the machine recursion is the unbounded one. */
  lemma {:induction false} MachineAgrees(H: HashFn, m: nat, n: nat, leaf: Digest, path: seq<Digest>)
    requires m < n <= Pow2(62) < TWO63
    ensures MachineRootFromPath(H, m, n, leaf, path)
            == match RootFromPath(H, m, n, leaf, path) case None => Fails case Some(d) => Root(d)
    decreases n
  {
    hide LoopExits, Pow2, NodeHash, MachineSplit, Split, SplitExponent, Doubled;
    if n == 1 || path == [] {
    } else {
      LoopExitsExactly(n);
      var k := Split(n);
      var rest := path[..|path| - 1];
      if m < k {
        MachineAgrees(H, m, k, leaf, rest);
      } else {
        MachineAgrees(H, m - k, n - k, leaf, rest);
      }
    }
  }

  /**
   The check never returns exactly when it is asked about a size above 2^62 with a path that
   is not empty; whenever it returns, its answer is VerifyInclusion.
   */
  lemma CheckDivergesExactly(H: HashFn, root: Digest, leaf: Leaf, m: int64, size: int64, path: seq<Digest>)
    ensures MachineVerify(H, root, leaf, m, size, path).Diverges?
            <==> 0 <= m < size && size > Pow2(62) && path != []
    ensures !MachineVerify(H, root, leaf, m, size, path).Diverges? ==>
              (MachineVerify(H, root, leaf, m, size, path).Accepts? <==> VerifyInclusion(H, root, leaf, m, size, path))
  {
    hide LoopExits, Pow2;
    Pow2Of62();
    if 0 <= m < size {
      LoopExitsExactly(size);
      assert Pow2(62) >= 2;
      if size <= Pow2(62) {
        MachineAgrees(H, m, size, LeafHash(H, leaf), path);
      }
    }
  }

  // ----- lengths

  lemma {:induction false} PathLength(H: HashFn, m: nat, leaves: seq<Leaf>)
    requires m < |leaves|
    ensures |AuditPath(H, m, leaves)| == |Turns(m, |leaves|)|
    decreases |leaves|
  {
    hide MerkleRoot, Pow2, SplitExponent, Split;
    if |leaves| <= 1 {
    } else {
      var k := Split(|leaves|);
      if m < k {
        PathLength(H, m, leaves[..k]);
      } else {
        PathLength(H, m - k, leaves[k..]);
      }
    }
  }

  /** An accepted path has exactly the leaf's depth as its length. */
  lemma {:induction false} AcceptedLength(H: HashFn, m: nat, n: nat, leaf: Digest, path: seq<Digest>)
    requires m < n
    ensures RootFromPath(H, m, n, leaf, path).Some? <==> |path| == |Turns(m, n)|
    decreases n
  {
    if n == 1 || path == [] {
    } else {
      var k := Split(n);
      var rest := path[..|path| - 1];
      if m < k {
        AcceptedLength(H, m, k, leaf, rest);
      } else {
        AcceptedLength(H, m - k, n - k, leaf, rest);
      }
    }
  }

  /** Depth is at most ceil(log2 n). */
  lemma {:induction false} DepthBound(m: nat, n: nat, j: nat)
    requires m < n <= Pow2(j)
    ensures |Turns(m, n)| <= j
    decreases n
  {
    if n == 1 {
    } else {
      var k := Split(n);
      var i := SplitExponent(n);
      if i >= j {
        Pow2Monotone(j, i);
      }
      if m < k {
        DepthBound(m, k, i);
      } else {
        DepthBound(m - k, n - k, i);
      }
    }
  }

  /** In a full tree of 2^j leaves every leaf has depth j. */
  lemma {:induction false} FullTreeDepth(m: nat, j: nat)
    requires m < Pow2(j)
    ensures |Turns(m, Pow2(j))| == j
    decreases j
  {
    if j == 0 {
    } else {
      SplitUnique(Pow2(j), j - 1);
      FullTreeDepth(if m < Pow2(j - 1) then m else m - Pow2(j - 1), j - 1);
    }
  }

  /** The first leaf reaches the bound: its depth is exactly ceil(log2 n). */
  lemma FirstLeafDepth(n: nat)
    requires n >= 2
    ensures |Turns(0, n)| == SplitExponent(n) + 1
  {
    FullTreeDepth(0, SplitExponent(n));
  }

  // ----- completeness, binding, soundness

  /** Every generated proof verifies. */
  lemma InclusionComplete(H: HashFn, leaves: seq<Leaf>, m: int)
    ensures InclusionProof(H, leaves, m).Some? <==> 0 <= m < |leaves|
    ensures 0 <= m < |leaves| ==>
              VerifyInclusion(H, MerkleRoot(H, leaves), leaves[m], m, |leaves|, InclusionProof(H, leaves, m).value)
  {
    if 0 <= m < |leaves| {
      TurnsAccepted(H, leaves, m, m, |leaves|);
    }
  }

  /** A genuine leaf and path recompute the root under every index and size with the same turns. */
  lemma TurnsAccepted(H: HashFn, leaves: seq<Leaf>, i: nat, m: nat, size: nat)
    requires i < |leaves| && m < size && Turns(i, |leaves|) == Turns(m, size)
    ensures VerifyInclusion(H, MerkleRoot(H, leaves), leaves[i], m, size, AuditPath(H, i, leaves))
  {
    TurnsLead(H, i, leaves);
    ClimbReachesRoot(H, TreeOf(leaves), Turns(i, |leaves|));
    PathIsClimb(H, m, size, leaves[i], AuditPath(H, i, leaves));
    RootIsTreeRoot(H, leaves);
  }

  /** The tree hash of section 2.1 of RFC 6962 on its smallest lists. */
  lemma SmallTrees(H: HashFn, a: Leaf, b: Leaf, c: Leaf)
    ensures MerkleRoot(H, []) == H([])
    ensures MerkleRoot(H, [a]) == H([0] + a)
    ensures MerkleRoot(H, [a, b]) == H([1] + H([0] + a) + H([0] + b))
    ensures MerkleRoot(H, [a, b, c]) == H([1] + H([1] + H([0] + a) + H([0] + b)) + H([0] + c))
  {
    assert Split(3) == 2 && Split(2) == 1;
    assert [a, b][..1] == [a] && [a, b][1..] == [b];
    assert [a, b, c][..2] == [a, b] && [a, b, c][2..] == [c];
  }

  /** Equal roots mean equal leaf lists, whatever their lengths, or a collision. */
  lemma RootBinding(H: HashFn, a: seq<Leaf>, b: seq<Leaf>)
    requires MerkleRoot(H, a) == MerkleRoot(H, b)
    ensures a == b || Collides(H, TreeInputs(H, a), TreeInputs(H, b))
  {
    RootIsTreeRoot(H, a);
    RootIsTreeRoot(H, b);
    TreeBinding(H, TreeOf(a), TreeOf(b));
    FlattenTreeOf(a);
    FlattenTreeOf(b);
  }

  /** Leaf i of the list has these turns, this content and this path. */
  predicate Locates(H: HashFn, leaves: seq<Leaf>, i: nat, turns: seq<bool>, leaf: Leaf, path: seq<Digest>) {
    && i < |leaves|
    && Turns(i, |leaves|) == turns
    && leaves[i] == leaf
    && AuditPath(H, i, leaves) == path
  }

  /**
   Soundness for any claimed index and size, true or not: the accepted leaf is in the
   list, at the index that the claimed turns lead to, and the path is its genuine audit
   path; or a string hashed by the tree collides with one hashed by the check.
   */
  lemma AcceptedIsLocated(H: HashFn, leaves: seq<Leaf>, m: nat, size: nat, leaf: Leaf, path: seq<Digest>)
    returns (i: nat)
    requires VerifyInclusion(H, MerkleRoot(H, leaves), leaf, m, size, path)
    ensures Locates(H, leaves, i, Turns(m, size), leaf, path)
            || Collides(H, TreeInputs(H, leaves), PathInputs(H, m, size, leaf, path))
  {
    var turns := Turns(m, size);
    i := 0;
    PathIsClimb(H, m, size, leaf, path);
    RootIsTreeRoot(H, leaves);
    ClimbBinding(H, TreeOf(leaves), turns, leaf, path);
    if !Collides(H, TreeInputs(H, leaves), PathInputs(H, m, size, leaf, path)) {
      i := TurnsOfSomeIndex(leaves, turns);
      TurnsLead(H, i, leaves);
    }
  }

  /** With the true size the accepted leaf is leaves[m] and the path is exactly its audit path. */
  lemma InclusionSound(H: HashFn, leaves: seq<Leaf>, m: int, leaf: Leaf, path: seq<Digest>)
    requires VerifyInclusion(H, MerkleRoot(H, leaves), leaf, m, |leaves|, path)
    ensures (leaf == leaves[m] && path == AuditPath(H, m, leaves))
            || Collides(H, TreeInputs(H, leaves), PathInputs(H, m, |leaves|, leaf, path))
  {
    var i := AcceptedIsLocated(H, leaves, m, |leaves|, leaf, path);
    if !Collides(H, TreeInputs(H, leaves), PathInputs(H, m, |leaves|, leaf, path)) {
      TurnsInjective(i, m, |leaves|);
    }
  }

  /** The genuine proof of an index is accepted under every index and size, up to 2^62, with the same turns. */
  lemma LocatedIsAccepted(H: HashFn, leaves: seq<Leaf>, i: nat, m: int64, size: int64)
    requires i < |leaves| && 0 <= m < size <= Pow2(62) && Turns(i, |leaves|) == Turns(m, size)
    ensures MachineVerify(H, MerkleRoot(H, leaves), leaves[i], m, size, AuditPath(H, i, leaves)).Accepts?
  {
    hide MerkleRoot, AuditPath, MachineVerify, VerifyInclusion, Turns;
    TurnsAccepted(H, leaves, i, m, size);
    CheckDivergesExactly(H, MerkleRoot(H, leaves), leaves[i], m, size, AuditPath(H, i, leaves));
  }

  /**
   Exactly what the check accepts, for every claimed index and size a 64-bit int can hold: a
   genuine leaf and audit path of some index with the claimed turns, at a size of at most
   2^62; anything else it accepts exhibits a collision.
   */
  lemma InclusionExact(H: HashFn, leaves: seq<Leaf>, m: int64, size: int64, leaf: Leaf, path: seq<Digest>)
    requires 0 <= m < size
    ensures var accepts := MachineVerify(H, MerkleRoot(H, leaves), leaf, m, size, path).Accepts?;
            var genuine := size <= Pow2(62) && exists i: nat :: Locates(H, leaves, i, Turns(m, size), leaf, path);
            && (genuine ==> accepts)
            && (accepts ==> genuine || Collides(H, TreeInputs(H, leaves), PathInputs(H, m, size, leaf, path)))
  {
    hide MerkleRoot, AuditPath, MachineVerify, VerifyInclusion, Collides, Turns, Pow2;
    CheckDivergesExactly(H, MerkleRoot(H, leaves), leaf, m, size, path);
    if MachineVerify(H, MerkleRoot(H, leaves), leaf, m, size, path).Accepts? {
      assert size <= Pow2(62) by { AcceptedIsBounded(H, MerkleRoot(H, leaves), leaf, m, size, path); }
      var i := AcceptedIsLocated(H, leaves, m, size, leaf, path);
    }
    if i: nat :| size <= Pow2(62) && Locates(H, leaves, i, Turns(m, size), leaf, path) {
      LocatedIsAccepted(H, leaves, i, m, size);
    }
  }

  lemma AcceptedIsBounded(H: HashFn, root: Digest, leaf: Leaf, m: int64, size: int64, path: seq<Digest>)
    requires MachineVerify(H, root, leaf, m, size, path).Accepts?
    ensures size <= Pow2(62)
  {
    hide LoopExits, Pow2;
    CheckDivergesExactly(H, root, leaf, m, size, path);
    Pow2Of62();
  }

  /** The bound matters: past it a genuine proof recomputes the root on paper, and the check never returns. */
  lemma GenuineProofCanDiverge(H: HashFn, leaves: seq<Leaf>)
    requires |leaves| == 2
    ensures Pow2(62) + 1 < TWO63
    ensures VerifyInclusion(H, MerkleRoot(H, leaves), leaves[1], Pow2(62), Pow2(62) + 1, AuditPath(H, 1, leaves))
    ensures MachineVerify(H, MerkleRoot(H, leaves), leaves[1], Pow2(62), Pow2(62) + 1,
                          AuditPath(H, 1, leaves)).Diverges?
  {
    hide Pow2, MerkleRoot, VerifyInclusion, MachineVerify, Turns, AuditPath, Split, SplitExponent;
    Pow2Of62();
    var n := Pow2(62) + 1;
    SplitUnique(n, 62);
    LastLeafTurns(n);
    LastLeafTurns(2);
    TurnsAccepted(H, leaves, 1, n - 1, n);
    PathLength(H, 1, leaves);
    CheckDivergesExactly(H, MerkleRoot(H, leaves), leaves[1], n - 1, n, AuditPath(H, 1, leaves));
  }

  /** A leaf alone to the right of the split is one right turn from the root. */
  lemma LastLeafTurns(n: nat)
    requires n >= 2 && (n == 2 || Split(n) == n - 1)
    ensures Turns(n - 1, n) == [true]
  {
    hide Pow2;
    TurnsStep(n - 1, n);
    assert Turns(0, 1) == [];
  }

  /** The true size is needed: the proof of leaf 2 of 3 also verifies as leaf 1 of 2. */
  lemma WrongSizeAccepted(H: HashFn, leaves: seq<Leaf>)
    requires |leaves| == 3
    ensures VerifyInclusion(H, MerkleRoot(H, leaves), leaves[2], 1, 2, AuditPath(H, 2, leaves))
  {
    assert Split(3) == 2 && Split(2) == 1;
    assert Turns(0, 1) == [];
    assert Turns(2, 3) == Turns(1, 2);
    TurnsAccepted(H, leaves, 2, 1, 2);
  }

  // ----- growth

  /** Growth past a full power of two deepens every older leaf. */
  lemma GrowthDeepens(H: HashFn, leaves: seq<Leaf>, n: nat, m: nat)
    requires m < n < |leaves| && n <= Split(|leaves|)
    ensures |AuditPath(H, m, leaves[..n])| < |AuditPath(H, m, leaves)|
  {
    var j := SplitExponent(|leaves|);
    PathLength(H, m, leaves[..n]);
    PathLength(H, m, leaves);
    DepthBound(m, n, j);
    FullTreeDepth(m, j);
  }

  lemma SubtreeInputs(H: HashFn, leaves: seq<Leaf>)
    requires |leaves| > 1
    ensures TreeInputs(H, leaves[Split(|leaves|)..]) <= TreeInputs(H, leaves)
  {
  }

  /** A leaf's audit path never survives growth of the list unchanged, unless hashes collide. */
  lemma {:induction false} GrowthChangesPath(H: HashFn, leaves: seq<Leaf>, n: nat, m: nat)
    requires m < n < |leaves|
    ensures AuditPath(H, m, leaves[..n]) != AuditPath(H, m, leaves)
            || Collides(H, TreeInputs(H, leaves[..n]), TreeInputs(H, leaves))
    decreases |leaves|
  {
    hide MerkleRoot, TreeInputs, SplitExponent, Pow2;
    var k, before := Split(|leaves|), leaves[..n];
    if n <= k {
      GrowthDeepens(H, leaves, n, m);
    } else {
      SplitUnique(n, SplitExponent(|leaves|));
      var a, b := AuditPath(H, m, before), AuditPath(H, m, leaves);
      var A, B := TreeInputs(H, before), TreeInputs(H, leaves);
      if a == b {
        if m < k {
          assert a[|a| - 1] == MerkleRoot(H, before[k..]) && b[|b| - 1] == MerkleRoot(H, leaves[k..]);
          RootBinding(H, before[k..], leaves[k..]);
        } else {
          assert a[..|a| - 1] == AuditPath(H, m - k, before[k..]);
          assert b[..|b| - 1] == AuditPath(H, m - k, leaves[k..]);
          DropOfTake(leaves, k, n);
          GrowthChangesPath(H, leaves[k..], n - k, m - k);
        }
        SubtreeInputs(H, before);
        SubtreeInputs(H, leaves);
        CollidesMonotone(H, TreeInputs(H, before[k..]), TreeInputs(H, leaves[k..]), A, B);
      }
    }
  }

  /** b is a multiple of 2^j. */
  predicate Aligned(b: nat, j: nat)
    decreases j
  {
    j == 0 || (b % 2 == 0 && Aligned(b / 2, j - 1))
  }

  lemma MulDouble(q: nat, p: nat)
    ensures q * (2 * p) == 2 * (q * p)
  {
  }

  lemma AlignedToOne(b: nat)
    ensures Aligned(b, 0)
  {
  }

  lemma AlignedDouble(b: nat, j: nat)
    requires j > 0 && Aligned(b, j - 1)
    ensures Aligned(2 * b, j)
  {
  }

  lemma {:induction false} MultiplesAligned(q: nat, j: nat)
    ensures Aligned(q * Pow2(j), j)
  {
    hide Pow2, Aligned;
    if j == 0 {
      AlignedToOne(q * Pow2(0));
    } else {
      MultiplesAligned(q, j - 1);
      Pow2Doubles(j);
      MulDouble(q, Pow2(j - 1));
      AlignedDouble(q * Pow2(j - 1), j);
    }
  }

  lemma {:induction false} Pow2Aligned(e: nat, j: nat)
    requires j <= e
    ensures Aligned(Pow2(e), j)
    decreases j
  {
    if j == 0 {
    } else {
      var half := Pow2(e - 1);
      assert Pow2(e) == 2 * half;
      Pow2Aligned(e - 1, j - 1);
    }
  }

  /** An aligned block that starts below an aligned bound ends at or below it. */
  lemma {:induction false} AlignedFits(b: nat, k: nat, j: nat)
    requires Aligned(b, j) && Aligned(k, j) && b < k
    ensures b + Pow2(j) <= k
    decreases j
  {
    if j == 0 {
    } else {
      AlignedFits(b / 2, k / 2, j - 1);
    }
  }

  lemma {:induction false} AlignedDifference(b: nat, k: nat, j: nat)
    requires Aligned(b, j) && Aligned(k, j) && k <= b
    ensures Aligned(b - k, j)
    decreases j
  {
    if j == 0 {
    } else {
      AlignedDifference(b / 2, k / 2, j - 1);
    }
  }

  /**
   Once the aligned block [b, b + 2^j) is full, the first j siblings of each of its leaves
   are its path inside the block alone, whatever the rest of the list holds.
   */
  lemma {:induction false} BlockStable(H: HashFn, leaves: seq<Leaf>, b: nat, j: nat, m: nat)
    requires Aligned(b, j) && b <= m < b + Pow2(j) <= |leaves|
    ensures j <= |AuditPath(H, m, leaves)|
    ensures AuditPath(H, m, leaves)[..j] == AuditPath(H, m - b, leaves[b..b + Pow2(j)])
    decreases |leaves|
  {
    hide AuditPath, SplitExponent, Aligned, Pow2;
    var n, p := |leaves|, Pow2(j);
    if n == p {
      WholeBlock(H, leaves, j, m);
    } else {
      var k, e := Split(n), SplitExponent(n);
      if e < j {
        Pow2Monotone(e, j);
      }
      Pow2Aligned(e, j);
      if m < k {
        AlignedFits(b, k, j);
        BlockStable(H, leaves[..k], b, j, m);
        SliceOfTake(leaves, k, b, b + p);
        LowSiblings(H, leaves, m, j);
      } else {
        if b < k {
          AlignedFits(b, k, j);
        }
        AlignedDifference(b, k, j);
        BlockStable(H, leaves[k..], b - k, j, m - k);
        SliceOfDrop(leaves, k, b, b + p);
        LowSiblings(H, leaves, m, j);
      }
    }
  }

  /** The siblings below the root split are those inside the half. */
  lemma LowSiblings(H: HashFn, leaves: seq<Leaf>, m: nat, j: nat)
    requires m < |leaves| && |leaves| > 1
    ensures var k := Split(|leaves|);
            var half := if m < k then AuditPath(H, m, leaves[..k]) else AuditPath(H, m - k, leaves[k..]);
            j <= |half| ==> j <= |AuditPath(H, m, leaves)| && AuditPath(H, m, leaves)[..j] == half[..j]
  {
    hide MerkleRoot, Split, SplitExponent, Pow2;
  }

  lemma WholeBlock(H: HashFn, leaves: seq<Leaf>, j: nat, m: nat)
    requires m < |leaves| == Pow2(j)
    ensures |AuditPath(H, m, leaves)| == j
    ensures AuditPath(H, m, leaves)[..j] == AuditPath(H, m, leaves[0..0 + Pow2(j)])
  {
    PathLength(H, m, leaves);
    FullTreeDepth(m, j);
    assert leaves[0..0 + Pow2(j)] == leaves;
  }

  /** So no later append changes those siblings. */
  lemma SiblingsSurviveGrowth(H: HashFn, leaves: seq<Leaf>, more: seq<Leaf>, b: nat, j: nat, m: nat)
    requires Aligned(b, j) && b <= m < b + Pow2(j) <= |leaves|
    ensures j <= |AuditPath(H, m, leaves)| && j <= |AuditPath(H, m, leaves + more)|
    ensures AuditPath(H, m, leaves + more)[..j] == AuditPath(H, m, leaves)[..j]
  {
    hide AuditPath, Aligned, Pow2;
    BlockStable(H, leaves, b, j, m);
    BlockStable(H, leaves + more, b, j, m);
    assert (leaves + more)[b..b + Pow2(j)] == leaves[b..b + Pow2(j)];
  }
}
