/**
 The tree behind a leaf list, and climbing it by turns alone. Both computations of a root
 go through this view, which is where collisions are extracted.
 */
module MerkleView {
  import opened Bytes
  import opened Hashing
  import opened Merkle

  datatype Tree = Empty | Tip(leaf: Leaf) | Fork(left: Tree, right: Tree)

  function TreeOf(leaves: seq<Leaf>): Tree
    decreases |leaves|
  {
    if |leaves| == 0 then Empty
    else if |leaves| == 1 then Tip(leaves[0])
    else
      var k := Split(|leaves|);
      Fork(TreeOf(leaves[..k]), TreeOf(leaves[k..]))
  }

  function Flatten(t: Tree): seq<Leaf> {
    match t
    case Empty => []
    case Tip(leaf) => [leaf]
    case Fork(l, r) => Flatten(l) + Flatten(r)
  }

  /** The string whose hash is the root. */
  function RootInput(H: HashFn, t: Tree): seq<byte>
    decreases t, 0
  {
    match t
    case Empty => []
    case Tip(leaf) => LeafInput(leaf)
    case Fork(l, r) => NodeInput(RootOf(H, l), RootOf(H, r))
  }

  function RootOf(H: HashFn, t: Tree): Digest
    decreases t, 1
  {
    H(RootInput(H, t))
  }

  /** Every string hashed to compute the root of t. */
  function InputsOf(H: HashFn, t: Tree): set<seq<byte>> {
    {RootInput(H, t)} + if t.Fork? then InputsOf(H, t.left) + InputsOf(H, t.right) else {}
  }

  /** The leaf the turns (leaf level first) lead to. */
  function Fetch(t: Tree, turns: seq<bool>): Option<Leaf> {
    match t
    case Empty => None
    case Tip(leaf) => if turns == [] then Some(leaf) else None
    case Fork(l, r) =>
      if turns == [] then None
      else Fetch(if turns[|turns| - 1] then r else l, turns[..|turns| - 1])
  }

  /** The siblings met on the way to it, leaf level first. */
  function Siblings(H: HashFn, t: Tree, turns: seq<bool>): seq<Digest>
    requires Fetch(t, turns).Some?
  {
    if t.Tip? then []
    else
      var right := turns[|turns| - 1];
      Siblings(H, if right then t.right else t.left, turns[..|turns| - 1])
      + [RootOf(H, if right then t.left else t.right)]
  }

  /** The string whose hash is the root recomputed by climbing from a leaf. */
  function ClimbInput(H: HashFn, turns: seq<bool>, leaf: Leaf, path: seq<Digest>): seq<byte>
    requires |turns| == |path|
    decreases |turns|, 0
  {
    if turns == [] then LeafInput(leaf)
    else
      var sib, rest := path[|path| - 1], path[..|path| - 1];
      var sub := Climb(H, turns[..|turns| - 1], leaf, rest);
      if turns[|turns| - 1] then NodeInput(sib, sub) else NodeInput(sub, sib)
  }

  function Climb(H: HashFn, turns: seq<bool>, leaf: Leaf, path: seq<Digest>): Digest
    requires |turns| == |path|
    decreases |turns|, 1
  {
    H(ClimbInput(H, turns, leaf, path))
  }

  /** Every string hashed while climbing. */
  function ClimbInputs(H: HashFn, turns: seq<bool>, leaf: Leaf, path: seq<Digest>): set<seq<byte>>
    requires |turns| == |path|
  {
    {ClimbInput(H, turns, leaf, path)} +
    if turns == [] then {} else ClimbInputs(H, turns[..|turns| - 1], leaf, path[..|path| - 1])
  }

  function TreeInputs(H: HashFn, leaves: seq<Leaf>): set<seq<byte>> {
    InputsOf(H, TreeOf(leaves))
  }

  /** Every string hashed by an inclusion check that reaches a root; none if it stops early. */
  function PathInputs(H: HashFn, m: nat, n: nat, leaf: Leaf, path: seq<Digest>): set<seq<byte>>
    requires m < n
  {
    var turns := Turns(m, n);
    if |turns| == |path| then ClimbInputs(H, turns, leaf, path) else {}
  }

  // ----- extraction, on trees

  lemma NodeInputInjective(l: Digest, r: Digest, l': Digest, r': Digest)
    requires NodeInput(l, r) == NodeInput(l', r')
    ensures l == l' && r == r'
  {
    SplitEqual([1] + l, r, [1] + l', r');
    SplitEqual([1], l, [1], l');
  }

  lemma LeafInputInjective(a: Leaf, b: Leaf)
    requires LeafInput(a) == LeafInput(b)
    ensures a == b
  {
    SplitEqual([0], a, [0], b);
  }

  /** The prefixes 0x00 and 0x01 tell leaves, nodes and the empty tree apart. */
  lemma PrefixesSeparate(a: Leaf, l: Digest, r: Digest)
    ensures LeafInput(a) != NodeInput(l, r) && LeafInput(a) != [] && NodeInput(l, r) != []
  {
    assert LeafInput(a)[0] == 0 && NodeInput(l, r)[0] == 1;
  }

  /** Equal roots mean equal trees, or a collision. */
  lemma {:induction false} TreeBinding(H: HashFn, t: Tree, u: Tree)
    requires RootOf(H, t) == RootOf(H, u)
    ensures t == u || Collides(H, InputsOf(H, t), InputsOf(H, u))
  {
    if RootInput(H, t) != RootInput(H, u) {
      CollisionFound(H, InputsOf(H, t), InputsOf(H, u), RootInput(H, t), RootInput(H, u));
    } else {
      match (t, u)
      case (Empty, Empty) =>
      case (Tip(a), Tip(b)) => LeafInputInjective(a, b);
      case (Fork(l, r), Fork(l', r')) =>
        NodeInputInjective(RootOf(H, l), RootOf(H, r), RootOf(H, l'), RootOf(H, r'));
        TreeBinding(H, l, l');
        TreeBinding(H, r, r');
        if Collides(H, InputsOf(H, l), InputsOf(H, l')) {
          CollidesMonotone(H, InputsOf(H, l), InputsOf(H, l'), InputsOf(H, t), InputsOf(H, u));
        } else if Collides(H, InputsOf(H, r), InputsOf(H, r')) {
          CollidesMonotone(H, InputsOf(H, r), InputsOf(H, r'), InputsOf(H, t), InputsOf(H, u));
        }
      case (Tip(a), Fork(l, r)) => PrefixesSeparate(a, RootOf(H, l), RootOf(H, r));
      case (Fork(l, r), Tip(a)) => PrefixesSeparate(a, RootOf(H, l), RootOf(H, r));
      case (_, _) =>
    }
  }

  /** A climb that reaches the root of t followed the real siblings of a real leaf, or a collision. */
  lemma {:induction false} ClimbBinding(H: HashFn, t: Tree, turns: seq<bool>, leaf: Leaf, path: seq<Digest>)
    requires |turns| == |path| && Climb(H, turns, leaf, path) == RootOf(H, t)
    ensures (Fetch(t, turns) == Some(leaf) && Siblings(H, t, turns) == path)
            || Collides(H, InputsOf(H, t), ClimbInputs(H, turns, leaf, path))
  {
    var A, B := InputsOf(H, t), ClimbInputs(H, turns, leaf, path);
    var x, y := RootInput(H, t), ClimbInput(H, turns, leaf, path);
    if x != y {
      CollisionFound(H, A, B, x, y);
    } else if turns == [] {
      match t
      case Empty =>
      case Tip(a) => LeafInputInjective(a, leaf);
      case Fork(l, r) => PrefixesSeparate(leaf, RootOf(H, l), RootOf(H, r));
    } else {
      var right := turns[|turns| - 1];
      var up, sib, rest := turns[..|turns| - 1], path[|path| - 1], path[..|path| - 1];
      var sub := Climb(H, up, leaf, rest);
      match t
      case Empty =>
      case Tip(a) =>
        PrefixesSeparate(a, if right then sib else sub, if right then sub else sib);
      case Fork(l, r) =>
        NodeInputInjective(RootOf(H, l), RootOf(H, r), if right then sib else sub, if right then sub else sib);
        var child := if right then r else l;
        ClimbBinding(H, child, up, leaf, rest);
        if Collides(H, InputsOf(H, child), ClimbInputs(H, up, leaf, rest)) {
          CollidesMonotone(H, InputsOf(H, child), ClimbInputs(H, up, leaf, rest), A, B);
        } else {
          InitLast(path);
        }
    }
  }

  /** Climbing a leaf's real siblings reaches the root. */
  lemma {:induction false} ClimbReachesRoot(H: HashFn, t: Tree, turns: seq<bool>)
    requires Fetch(t, turns).Some?
    ensures |Siblings(H, t, turns)| == |turns|
    ensures Climb(H, turns, Fetch(t, turns).value, Siblings(H, t, turns)) == RootOf(H, t)
  {
    if !t.Fork? {
    } else {
      var right := turns[|turns| - 1];
      var child, up := if right then t.right else t.left, turns[..|turns| - 1];
      ClimbReachesRoot(H, child, up);
      TakeOfAppend(Siblings(H, child, up), RootOf(H, if right then t.left else t.right), |up|);
    }
  }

  // ----- the source's recursions agree with the view

  lemma {:induction false} RootIsTreeRoot(H: HashFn, leaves: seq<Leaf>)
    ensures MerkleRoot(H, leaves) == RootOf(H, TreeOf(leaves))
    decreases |leaves|
  {
    if |leaves| <= 1 {
    } else {
      var k := Split(|leaves|);
      RootIsTreeRoot(H, leaves[..k]);
      RootIsTreeRoot(H, leaves[k..]);
    }
  }

  lemma {:induction false} FlattenTreeOf(leaves: seq<Leaf>)
    ensures Flatten(TreeOf(leaves)) == leaves
    decreases |leaves|
  {
    if |leaves| <= 1 {
    } else {
      var k := Split(|leaves|);
      FlattenTreeOf(leaves[..k]);
      FlattenTreeOf(leaves[k..]);
      TakeDrop(leaves, k);
    }
  }

  lemma {:induction false} PathIsClimb(H: HashFn, m: nat, n: nat, leaf: Leaf, path: seq<Digest>)
    requires m < n
    ensures RootFromPath(H, m, n, LeafHash(H, leaf), path)
            == if |path| == |Turns(m, n)| then Some(Climb(H, Turns(m, n), leaf, path)) else None
    decreases n
  {
    if n == 1 || path == [] {
    } else {
      var k := Split(n);
      var rest := path[..|path| - 1];
      if m < k {
        PathIsClimb(H, m, k, leaf, rest);
        TakeOfAppend(Turns(m, k), false, 0);
      } else {
        PathIsClimb(H, m - k, n - k, leaf, rest);
        TakeOfAppend(Turns(m - k, n - k), true, 0);
      }
    }
  }

  // One level of each recursion over a list of two or more.

  lemma TreeStep(leaves: seq<Leaf>)
    requires |leaves| > 1
    ensures var k := Split(|leaves|); TreeOf(leaves) == Fork(TreeOf(leaves[..k]), TreeOf(leaves[k..]))
  {
  }

  lemma TurnsStep(m: nat, n: nat)
    requires m < n && n > 1
    ensures var k := Split(n);
            Turns(m, n) == if m < k then Turns(m, k) + [false] else Turns(m - k, n - k) + [true]
  {
  }

  lemma AuditStep(H: HashFn, m: nat, leaves: seq<Leaf>)
    requires m < |leaves| && |leaves| > 1
    ensures var k := Split(|leaves|);
            AuditPath(H, m, leaves) == if m < k then AuditPath(H, m, leaves[..k]) + [RootOf(H, TreeOf(leaves[k..]))]
                                       else AuditPath(H, m - k, leaves[k..]) + [RootOf(H, TreeOf(leaves[..k]))]
  {
    hide MerkleRoot, RootOf, TreeOf, Split;
    var k := Split(|leaves|);
    RootIsTreeRoot(H, leaves[..k]);
    RootIsTreeRoot(H, leaves[k..]);
  }

  lemma LoneLeaf(leaves: seq<Leaf>)
    requires |leaves| == 1
    ensures Turns(0, 1) == [] && Fetch(TreeOf(leaves), []) == Some(leaves[0])
  {
  }

  lemma LonePath(H: HashFn, leaves: seq<Leaf>)
    requires |leaves| == 1
    ensures Turns(0, 1) == [] && Fetch(TreeOf(leaves), []).Some?
    ensures Siblings(H, TreeOf(leaves), []) == AuditPath(H, 0, leaves)
  {
  }

  lemma {:induction false} TurnsFetch(m: nat, leaves: seq<Leaf>)
    requires m < |leaves|
    ensures Fetch(TreeOf(leaves), Turns(m, |leaves|)) == Some(leaves[m])
    decreases |leaves|
  {
    hide Split, Turns, TreeOf, Fetch;
    if |leaves| == 1 {
      LoneLeaf(leaves);
    } else {
      var k, n := Split(|leaves|), |leaves|;
      TreeStep(leaves);
      TurnsStep(m, n);
      if m < k {
        TurnsFetch(m, leaves[..k]);
        FetchStep(TreeOf(leaves[..k]), TreeOf(leaves[k..]), Turns(m, k), false);
      } else {
        TurnsFetch(m - k, leaves[k..]);
        FetchStep(TreeOf(leaves[..k]), TreeOf(leaves[k..]), Turns(m - k, n - k), true);
      }
    }
  }

  lemma FetchStep(l: Tree, r: Tree, turns: seq<bool>, right: bool)
    ensures Fetch(Fork(l, r), turns + [right]) == Fetch(if right then r else l, turns)
  {
    TakeOfAppend(turns, right, 0);
  }

  lemma SiblingsStep(H: HashFn, l: Tree, r: Tree, turns: seq<bool>, right: bool)
    requires Fetch(if right then r else l, turns).Some?
    ensures Fetch(Fork(l, r), turns + [right]).Some?
    ensures Siblings(H, Fork(l, r), turns + [right])
            == Siblings(H, if right then r else l, turns) + [RootOf(H, if right then l else r)]
  {
    hide RootOf;
    TakeOfAppend(turns, right, 0);
  }

  /** Turns(m, n) lead to leaf m of n, past exactly its audit path. */
  lemma {:induction false} TurnsLead(H: HashFn, m: nat, leaves: seq<Leaf>)
    requires m < |leaves|
    ensures Fetch(TreeOf(leaves), Turns(m, |leaves|)) == Some(leaves[m])
    ensures Siblings(H, TreeOf(leaves), Turns(m, |leaves|)) == AuditPath(H, m, leaves)
    decreases |leaves|
  {
    hide Split, Turns, TreeOf, Fetch, AuditPath, Siblings, RootOf;
    TurnsFetch(m, leaves);
    if |leaves| == 1 {
      LonePath(H, leaves);
    } else {
      var k, n := Split(|leaves|), |leaves|;
      TreeStep(leaves);
      TurnsStep(m, n);
      AuditStep(H, m, leaves);
      if m < k {
        TurnsLead(H, m, leaves[..k]);
        SiblingsStep(H, TreeOf(leaves[..k]), TreeOf(leaves[k..]), Turns(m, k), false);
      } else {
        TurnsLead(H, m - k, leaves[k..]);
        SiblingsStep(H, TreeOf(leaves[..k]), TreeOf(leaves[k..]), Turns(m - k, n - k), true);
      }
    }
  }

  /** Turns that lead to a leaf at all are the turns of some index. */
  lemma {:induction false} TurnsOfSomeIndex(leaves: seq<Leaf>, turns: seq<bool>) returns (i: nat)
    requires Fetch(TreeOf(leaves), turns).Some?
    ensures i < |leaves| && Turns(i, |leaves|) == turns
    decreases |leaves|
  {
    if |leaves| <= 1 {
      return 0;
    }
    var k := Split(|leaves|);
    var up := turns[..|turns| - 1];
    InitLast(turns);
    if turns[|turns| - 1] {
      i := TurnsOfSomeIndex(leaves[k..], up);
      i := i + k;
    } else {
      i := TurnsOfSomeIndex(leaves[..k], up);
    }
  }

  lemma {:induction false} TurnsInjective(m: nat, m': nat, n: nat)
    requires m < n && m' < n && Turns(m, n) == Turns(m', n)
    ensures m == m'
    decreases n
  {
    hide Split, Turns;
    if n == 1 {
    } else {
      var k := Split(n);
      TurnsStep(m, n);
      TurnsStep(m', n);
      AppendedEqual(if m < k then Turns(m, k) else Turns(m - k, n - k), m >= k,
                    if m' < k then Turns(m', k) else Turns(m' - k, n - k), m' >= k);
      if m < k {
        TurnsInjective(m, m', k);
      } else {
        TurnsInjective(m - k, m' - k, n - k);
      }
    }
  }
}
