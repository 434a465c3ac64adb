/** The RFC 6962 Merkle tree of translog/merkle.go: tree hash, audit paths, inclusion check. */
module Merkle {
  import opened Bytes
  import opened Hashing

  type Leaf = seq<byte>

  // ----- powers of two

  function Pow2(j: nat): (p: nat)
    ensures p >= 1
  {
    if j == 0 then 1 else 2 * Pow2(j - 1)
  }

  /** The exponent of the largest power of two strictly below n. */
  function SplitExponent(n: nat): (j: nat)
    requires n >= 2
    ensures Pow2(j) < n <= 2 * Pow2(j)
  {
    if n == 2 then 0 else 1 + SplitExponent((n + 1) / 2)
  }

  function Split(n: nat): (k: nat)
    requires n >= 2
    ensures 1 <= k < n <= 2 * k
  {
    Pow2(SplitExponent(n))
  }

  lemma {:induction false} Pow2Monotone(i: nat, j: nat)
    requires i <= j
    ensures Pow2(i) <= Pow2(j)
    ensures i < j ==> 2 * Pow2(i) <= Pow2(j)
    decreases j
  {
    if i == j {
    } else {
      Pow2Monotone(i, j - 1);
    }
  }

  /** The split point is the only power of two k with k < n <= 2k. */
  lemma SplitUnique(n: nat, j: nat)
    requires n >= 2 && Pow2(j) < n <= 2 * Pow2(j)
    ensures Split(n) == Pow2(j) && SplitExponent(n) == j
  {
    var i := SplitExponent(n);
    if i < j {
      Pow2Monotone(i, j);
    } else if j < i {
      Pow2Monotone(j, i);
    }
  }

  /** The doubling loop; 2^62 is the largest argument it terminates on (LoopExitsExactly). */
  method LargestPow2Below(n: int) returns (r: int)
    requires n <= Pow2(62)
    ensures n >= 2 ==> r == Split(n)
    ensures n < 2 ==> r == 0
  {
    var k := 1;
    ghost var j := 0;
    while k < n
      invariant k == Pow2(j)
      invariant j > 0 ==> Pow2(j - 1) < n
      decreases n - k
    {
      k := 2 * k;
      j := j + 1;
    }
    if n >= 2 {
      SplitUnique(n, j - 1);
    }
    r := k / 2;
  }

  /** `k <<= 1` on a 64-bit int. */
  function Shl1(k: int64): int64 {
    if 2 * k >= TWO63 then 2 * k - TWO64
    else if 2 * k < -TWO63 then 2 * k + TWO64
    else 2 * k
  }

  /** The value of k after i iterations of the machine loop. */
  function Doubled(i: nat): int64 {
    if i == 0 then 1 else Shl1(Doubled(i - 1))
  }

  // ----- tree hash and audit paths

  function LeafInput(leaf: Leaf): seq<byte> { [0] + leaf }

  function NodeInput(l: Digest, r: Digest): seq<byte> { [1] + l + r }

  function LeafHash(H: HashFn, leaf: Leaf): Digest { H(LeafInput(leaf)) }

  function NodeHash(H: HashFn, l: Digest, r: Digest): Digest { H(NodeInput(l, r)) }

  function MerkleRoot(H: HashFn, leaves: seq<Leaf>): Digest
    decreases |leaves|
  {
    var n := |leaves|;
    if n == 0 then H([])
    else if n == 1 then LeafHash(H, leaves[0])
    else
      var k := Split(n);
      NodeHash(H, MerkleRoot(H, leaves[..k]), MerkleRoot(H, leaves[k..]))
  }

  /** Siblings of leaf m, leaf level first. */
  function AuditPath(H: HashFn, m: nat, leaves: seq<Leaf>): seq<Digest>
    requires m < |leaves|
    decreases |leaves|
  {
    if |leaves| == 1 then []
    else
      var k := Split(|leaves|);
      if m < k
      then AuditPath(H, m, leaves[..k]) + [MerkleRoot(H, leaves[k..])]
      else AuditPath(H, m - k, leaves[k..]) + [MerkleRoot(H, leaves[..k])]
  }

  function InclusionProof(H: HashFn, leaves: seq<Leaf>, m: int): Option<seq<Digest>> {
    if m < 0 || m >= |leaves| then None else Some(AuditPath(H, m, leaves))
  }

  function RootFromPath(H: HashFn, m: nat, n: nat, leaf: Digest, path: seq<Digest>): Option<Digest>
    requires m < n
    decreases n
  {
    if n == 1 then if path != [] then None else Some(leaf)
    else if path == [] then None
    else
      var k := Split(n);
      var sib, rest := path[|path| - 1], path[..|path| - 1];
      if m < k then
        match RootFromPath(H, m, k, leaf, rest)
        case None => None
        case Some(left) => Some(NodeHash(H, left, sib))
      else
        match RootFromPath(H, m - k, n - k, leaf, rest)
        case None => None
        case Some(right) => Some(NodeHash(H, sib, right))
  }

  predicate VerifyInclusion(H: HashFn, root: Digest, leaf: Leaf, m: int, size: int, path: seq<Digest>) {
    && 0 <= m < size
    && RootFromPath(H, m, size, LeafHash(H, leaf), path) == Some(root)
  }

  // ----- the shape of a path

  /** On which side of each split leaf m of n lies (true: right), leaf level first. */
  function Turns(m: nat, n: nat): seq<bool>
    requires m < n
    decreases n
  {
    if n == 1 then []
    else
      var k := Split(n);
      if m < k then Turns(m, k) + [false] else Turns(m - k, n - k) + [true]
  }
}

