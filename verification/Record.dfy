/** One signed authorization decision and its fixed-width encoding (translog/record.go). */
module Record {
  import opened Bytes
  import opened Hashing

  type Key = seq<byte>

  /**
   The foreign primitives: SHA-256 and Ed25519. Signing and verifying are arbitrary
   functions; the one law ever used, and only where stated, is KeyPair.
   */
  datatype Crypto = Crypto(
    hash: HashFn,
    sign: (Key, seq<byte>) -> seq<byte>,
    verify: (Key, seq<byte>, seq<byte>) -> bool)

  /** A matching key pair: what priv signs, pub verifies. */
  ghost predicate KeyPair(c: Crypto, priv: Key, pub: Key) {
    forall msg :: c.verify(pub, msg, c.sign(priv, msg))
  }

  const ALLOW: byte := 0
  const DENY_VIOLATION: byte := 1
  const DENY_UNAVAILABLE: byte := 2

  datatype Rec = Rec(seqNo: uint64, decision: byte, binding: Digest, issuedAt: int64, prevHash: Digest)

  const LAYOUT_VERSION: byte := 2

  function DomainTag(): GoString { Ascii("spt-txn/logentry/v1") }

  /** `uint64(x)` of an int64: two's complement. */
  function TwosComplement(x: int64): (u: uint64)
    ensures u == x || u == x + TWO64
  {
    if x >= 0 then x else x + TWO64
  }

  function CanonicalBytes(r: Rec): (b: seq<byte>)
    ensures |b| == 102
  {
    DomainTag() + [0] + [LAYOUT_VERSION]
    + LittleEndian(r.seqNo, 8)
    + [r.decision]
    + r.binding
    + LittleEndian(TwosComplement(r.issuedAt), 8)
    + r.prevHash
  }

  function HashOf(c: Crypto, r: Rec): Digest { c.hash(CanonicalBytes(r)) }

  function Sign(c: Crypto, priv: Key, r: Rec): seq<byte> { c.sign(priv, CanonicalBytes(r)) }

  predicate VerifySig(c: Crypto, pub: Key, r: Rec, sig: seq<byte>) { c.verify(pub, CanonicalBytes(r), sig) }

  /** CanonicalBytes as the source builds it: appends to one buffer through one scratch array. */
  method BuildCanonicalBytes(r: Rec) returns (out: seq<byte>)
    ensures out == CanonicalBytes(r)
  {
    out := DomainTag();
    out := out + [0];
    out := out + [LAYOUT_VERSION];
    var u8 := new byte[8];
    PutUint64(u8, r.seqNo);
    out := out + u8[..];
    out := out + [r.decision];
    out := out + r.binding;
    PutUint64(u8, TwosComplement(r.issuedAt));
    out := out + u8[..];
    out := out + r.prevHash;
  }

  /** binary.LittleEndian.PutUint64 */
  method PutUint64(a: array<byte>, v: uint64)
    requires a.Length == 8
    modifies a
    ensures a[..] == LittleEndian(v, 8)
  {
    hide LittleEndian;
    var rest: nat := v;
    assert a[..0] + LittleEndian(v, 8) == LittleEndian(v, 8);
    for i := 0 to 8
      invariant a[..i] + LittleEndian(rest, 8 - i) == LittleEndian(v, 8)
    {
      ghost var before := a[..i];
      LittleEndianStep(before, rest, 8 - i);
      a[i] := rest % 256;
      assert a[..i + 1] == before + [rest % 256];
      rest := rest / 256;
    }
    assert a[..8] == a[..];
    assert a[..] + LittleEndian(rest, 0) == a[..];
  }

  /** The tag is the text spt-txn/logentry/v1. */
  lemma TagBytes()
    ensures DomainTag()
            == [115, 112, 116, 45, 116, 120, 110, 47, 108, 111, 103, 101, 110, 116, 114, 121, 47, 118, 49]
  {
  }

  /** Where each field sits: tag, 0x00, version, Seq, decision, binding, timestamp, previous hash. */
  lemma CanonicalLayout(r: Rec)
    ensures var b := CanonicalBytes(r);
            && b[..19] == [115, 112, 116, 45, 116, 120, 110, 47, 108, 111, 103, 101, 110, 116, 114, 121, 47, 118, 49]
            && b[19] == 0 && b[20] == 2
            && FromLittleEndian(b[21..29]) == r.seqNo
            && b[29] == r.decision
            && b[30..62] == r.binding
            && FromLittleEndian(b[62..70]) == TwosComplement(r.issuedAt)
            && b[70..] == r.prevHash
  {
    hide LittleEndian, FromLittleEndian, Pow256, DomainTag;
    var b := CanonicalBytes(r);
    TagBytes();
    assert b[..19] == DomainTag();
    Pow256Values();
    LittleEndianRoundTrip(r.seqNo, 8);
    LittleEndianRoundTrip(TwosComplement(r.issuedAt), 8);
    assert b[21..29] == LittleEndian(r.seqNo, 8);
    assert b[62..70] == LittleEndian(TwosComplement(r.issuedAt), 8);
  }

  /** The encoding determines every field, timestamps before 1970 included. */
  lemma CanonicalInjective(r: Rec, s: Rec)
    requires CanonicalBytes(r) == CanonicalBytes(s)
    ensures r == s
  {
    hide LittleEndian, DomainTag;
    var tr, ts := LittleEndian(TwosComplement(r.issuedAt), 8), LittleEndian(TwosComplement(s.issuedAt), 8);
    var nr, ns := LittleEndian(r.seqNo, 8), LittleEndian(s.seqNo, 8);
    var h := DomainTag() + [0] + [LAYOUT_VERSION];
    SplitEqual(h + nr + [r.decision] + r.binding + tr, r.prevHash, h + ns + [s.decision] + s.binding + ts, s.prevHash);
    SplitEqual(h + nr + [r.decision] + r.binding, tr, h + ns + [s.decision] + s.binding, ts);
    SplitEqual(h + nr + [r.decision], r.binding, h + ns + [s.decision], s.binding);
    SplitEqual(h + nr, [r.decision], h + ns, [s.decision]);
    SplitEqual(h, nr, h, ns);
    Pow256Values();
    LittleEndianInjective(r.seqNo, s.seqNo, 8);
    LittleEndianInjective(TwosComplement(r.issuedAt), TwosComplement(s.issuedAt), 8);
    assert r.decision == [r.decision][0] == [s.decision][0] == s.decision;
  }
}
