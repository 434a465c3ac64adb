/** Bytes, Go strings, 32-byte digests and fixed-width little-endian integers. */
module Bytes {

  type byte = x: int | 0 <= x < 256

  /** A Go string is a byte string. */
  type GoString = seq<byte>

  /** `[32]byte` */
  type Digest = d: seq<byte> | |d| == 32 witness seq(32, _ => 0)

  const TWO63: int := 0x8000_0000_0000_0000
  const TWO64: int := 0x1_0000_0000_0000_0000
  const TWO128: int := 0x1_0000_0000_0000_0000_0000_0000_0000_0000

  type uint64 = x: int | 0 <= x < TWO64
  type int64 = x: int | -TWO63 <= x < TWO63

  /** The zero value of a `[32]byte`. */
  function Zero(): (z: Digest)
    ensures forall k :: 0 <= k < 32 ==> z[k] == 0
  {
    seq(32, _ => 0)
  }

  datatype Option<+T> = None | Some(value: T)

  datatype Result<+T, +E> = Ok(value: T) | Err(error: E)

  /** The bytes of an ASCII literal. */
  function Ascii(s: string): (b: GoString)
    ensures |b| == |s|
    ensures forall i :: 0 <= i < |s| && s[i] as int < 128 ==> b[i] == s[i] as int
  {
    seq(|s|, i requires 0 <= i < |s| => s[i] as int % 256)
  }

  function Pow256(n: nat): nat {
    if n == 0 then 1 else 256 * Pow256(n - 1)
  }

  /** The n low-order bytes of v, least significant first. */
  function LittleEndian(v: nat, n: nat): (b: seq<byte>)
    ensures |b| == n
    decreases n
  {
    if n == 0 then [] else [v % 256] + LittleEndian(v / 256, n - 1)
  }

  lemma LittleEndianUnfold(v: nat, n: nat)
    requires n > 0
    ensures LittleEndian(v, n) == [v % 256] + LittleEndian(v / 256, n - 1)
  {
  }

  lemma LittleEndianStep(done: seq<byte>, v: nat, n: nat)
    requires n > 0
    ensures done + LittleEndian(v, n) == (done + [v % 256]) + LittleEndian(v / 256, n - 1)
  {
  }

  /** The number a little-endian byte string stands for. */
  function FromLittleEndian(b: seq<byte>): nat {
    if b == [] then 0 else b[0] + 256 * FromLittleEndian(b[1..])
  }

  lemma {:induction false} LittleEndianRoundTrip(v: nat, n: nat)
    requires v < Pow256(n)
    ensures FromLittleEndian(LittleEndian(v, n)) == v
    decreases n
  {
    if n == 0 {
    } else {
      LittleEndianRoundTrip(v / 256, n - 1);
      assert LittleEndian(v, n)[1..] == LittleEndian(v / 256, n - 1);
    }
  }

  /** Equal encodings of in-range numbers come from equal numbers. */
  lemma LittleEndianInjective(v: nat, w: nat, n: nat)
    requires v < Pow256(n) && w < Pow256(n)
    requires LittleEndian(v, n) == LittleEndian(w, n)
    ensures v == w
  {
    LittleEndianRoundTrip(v, n);
    LittleEndianRoundTrip(w, n);
  }

  lemma Pow256Values()
    ensures Pow256(8) == TWO64 && Pow256(16) == TWO128
  {
    assert Pow256(4) == 0x1_0000_0000;
    assert Pow256(8) == TWO64;
    assert Pow256(12) == 0x1_0000_0000_0000_0000_0000_0000;
  }

  lemma TakeDrop<T>(s: seq<T>, k: nat)
    requires k <= |s|
    ensures s == s[..k] + s[k..]
  {
  }

  lemma InitLast<T>(s: seq<T>)
    requires s != []
    ensures s == s[..|s| - 1] + [s[|s| - 1]]
  {
  }

  lemma TakeOfAppend<T>(s: seq<T>, x: T, j: nat)
    requires j <= |s|
    ensures (s + [x])[..j] == s[..j] && (s + [x])[..|s|] == s
  {
  }

  lemma AppendedEqual<T>(a: seq<T>, x: T, b: seq<T>, y: T)
    requires a + [x] == b + [y]
    ensures a == b && x == y
  {
    assert (a + [x])[|a|] == x && (b + [y])[|b|] == y;
    assert a == (a + [x])[..|a|] && b == (b + [y])[..|b|];
  }

  lemma ConcatAssoc<T>(a: seq<T>, b: seq<T>, c: seq<T>)
    ensures (a + b) + c == a + (b + c)
  {
  }

  lemma SliceOfTake<T>(s: seq<T>, k: nat, b: nat, e: nat)
    requires b <= e <= k <= |s|
    ensures s[..k][b..e] == s[b..e]
  {
  }

  lemma SliceOfDrop<T>(s: seq<T>, k: nat, b: nat, e: nat)
    requires k <= b <= e <= |s|
    ensures s[k..][b - k..e - k] == s[b..e]
  {
  }

  lemma DropOfTake<T>(s: seq<T>, k: nat, n: nat)
    requires k <= n <= |s|
    ensures s[..n][k..] == s[k..n] == s[k..][..n - k]
  {
  }

  lemma TakeOfTake<T>(s: seq<T>, k: nat, n: nat)
    requires k <= n <= |s|
    ensures s[..n][..k] == s[..k]
  {
  }

  /** Two concatenations with equal first parts' lengths agree part by part. */
  lemma SplitEqual<T>(a: seq<T>, b: seq<T>, c: seq<T>, d: seq<T>)
    requires a + b == c + d && |a| == |c|
    ensures a == c && b == d
  {
    assert a == (a + b)[..|a|] && c == (c + d)[..|c|];
    assert b == (a + b)[|a|..] && d == (c + d)[|c|..];
  }
}

/**
 SHA-256 as an arbitrary function to digests. Nothing is assumed about it: every
 binding result below says that the claim holds or that two of the strings the
 two computations actually hashed are different and have the same hash.
 */
module Hashing {
  import opened Bytes

  type HashFn = seq<byte> -> Digest

  predicate Clash(H: HashFn, x: seq<byte>, y: seq<byte>) {
    x != y && H(x) == H(y)
  }

  /** Some string of A and some string of B are different and hash alike. */
  ghost predicate Collides(H: HashFn, A: set<seq<byte>>, B: set<seq<byte>>) {
    exists x, y {:trigger Clash(H, x, y)} :: x in A && y in B && Clash(H, x, y)
  }

  lemma CollisionFound(H: HashFn, A: set<seq<byte>>, B: set<seq<byte>>, x: seq<byte>, y: seq<byte>)
    requires x in A && y in B && Clash(H, x, y)
    ensures Collides(H, A, B)
  {
  }

  lemma CollidesMonotone(H: HashFn, A: set<seq<byte>>, B: set<seq<byte>>, A': set<seq<byte>>, B': set<seq<byte>>)
    requires Collides(H, A, B) && A <= A' && B <= B'
    ensures Collides(H, A', B')
  {
    var x, y :| x in A && y in B && Clash(H, x, y);
  }
}

/** One-to-one maps. */
module Maps {

  ghost predicate OneToOne<K, V>(m: map<K, V>) {
    forall x, y :: x in m && y in m && m[x] == m[y] ==> x == y
  }

  lemma AddOneToOne<K, V>(m: map<K, V>, k: K, v: V)
    requires OneToOne(m) && k !in m && v !in m.Values
    ensures OneToOne(m[k := v]) && m[k := v].Values == m.Values + {v}
  {
    var m' := m[k := v];
    forall x ensures x in m'.Values <==> x in m.Values + {v} {
      if x in m.Values {
        var y :| y in m && m[y] == x;
        assert y in m' && m'[y] == x;
      }
      assert k in m';
    }
  }

  /** A one-to-one map has as many values as keys. */
  lemma {:induction false} OneToOneSize<K, V>(m: map<K, V>)
    requires OneToOne(m)
    ensures |m.Values| == |m.Keys|
    decreases |m|
  {
    if m.Keys == {} {
      assert m.Values == {};
    } else {
      var k :| k in m;
      var m' := m - {k};
      assert m[k] !in m'.Values;
      AddOneToOne(m', k, m[k]);
      assert m == m'[k := m[k]];
      assert m.Keys == m'.Keys + {k};
      OneToOneSize(m');
    }
  }
}
