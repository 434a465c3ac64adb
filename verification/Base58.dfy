/** Base58 as gate/base58.go encodes and decodes it. */
module Base58 {
  import opened Bytes
  import opened Radix

  /** The alphabet, in its six runs of consecutive characters. */
  function Alphabet(): string {
    "123456789" + "ABCDEFGH" + "JKLMN" + "PQRSTUVWXYZ" + "abcdefghijk" + "mnopqrstuvwxyz"
  }

  function Ordinal(d: nat): nat {
    if d < 9 then 49 + d
    else if d < 17 then 56 + d
    else if d < 22 then 57 + d
    else if d < 33 then 58 + d
    else if d < 44 then 64 + d
    else 65 + d
  }

  lemma AlphabetAt(d: nat)
    requires d < 58
    ensures |Alphabet()| == 58 && Alphabet()[d] as int == Ordinal(d)
  {
    if d < 9 {
      assert Alphabet()[d] == "123456789"[d];
    } else if d < 17 {
      assert Alphabet()[d] == "ABCDEFGH"[d - 9];
    } else if d < 22 {
      assert Alphabet()[d] == "JKLMN"[d - 17];
    } else if d < 33 {
      assert Alphabet()[d] == "PQRSTUVWXYZ"[d - 22];
    } else if d < 44 {
      assert Alphabet()[d] == "abcdefghijk"[d - 33];
    } else {
      assert Alphabet()[d] == "mnopqrstuvwxyz"[d - 44];
    }
  }

  function DigitChar(d: nat): (ch: byte)
    requires d < 58
    ensures ch == Ordinal(d)
  {
    AlphabetAt(d);
    Alphabet()[d] as int
  }

  /** The digit of a character among the first n of the alphabet, or -1. */
  function IndexBelow(ch: byte, n: nat): (v: int)
    requires n <= 58
    ensures -1 <= v < n
    ensures v >= 0 ==> DigitChar(v) == ch
    ensures v == -1 ==> forall d: nat :: d < n ==> DigitChar(d) != ch
  {
    if n == 0 then -1
    else if DigitChar(n - 1) == ch then n - 1
    else IndexBelow(ch, n - 1)
  }

  /** `b58Index` */
  function CharDigit(ch: byte): (v: int)
    ensures -1 <= v < 58
  {
    IndexBelow(ch, 58)
  }

  lemma CharDigitInverse(d: nat)
    requires d < 58
    ensures CharDigit(DigitChar(d)) == d
  {
    var v := CharDigit(DigitChar(d));
    assert v >= 0 && Ordinal(v) == Ordinal(d);
  }

  /** A letter or digit other than 0, I, O and l. */
  predicate InAlphabet(ch: byte) {
    && (48 <= ch <= 57 || 65 <= ch <= 90 || 97 <= ch <= 122)
    && ch != 48 && ch != 73 && ch != 79 && ch != 108
  }

  /**
   Which characters count, and in which order: the letters and digits without 0, I, O and l, by
   character code. With CharDigitInverse this leaves no choice for any character's digit.
   */
  lemma AlphabetExactly(ch: byte, ch': byte)
    ensures CharDigit(ch) >= 0 <==> InAlphabet(ch)
    ensures InAlphabet(ch) && InAlphabet(ch') ==> (CharDigit(ch) < CharDigit(ch') <==> ch < ch')
  {
    hide DigitChar, IndexBelow;
    if InAlphabet(ch) {
      InAlphabetHasDigit(ch);
    }
    if InAlphabet(ch') {
      InAlphabetHasDigit(ch');
    }
  }

  lemma InAlphabetHasDigit(ch: byte)
    requires InAlphabet(ch)
    ensures CharDigit(ch) >= 0 && Ordinal(CharDigit(ch)) == ch
  {
    hide IndexBelow, Alphabet;
    var d := if ch <= 57 then ch - 49
             else if ch <= 72 then ch - 56
             else if ch <= 78 then ch - 57
             else if ch <= 90 then ch - 58
             else if ch <= 107 then ch - 64
             else ch - 65;
    assert Ordinal(d) == ch;
    CharDigitInverse(d);
  }

  /** The initializer of the index table. */
  method BuildIndex() returns (idx: array<int>)
    ensures idx.Length == 256
    ensures forall ch: byte :: idx[ch] == CharDigit(ch)
  {
    idx := new int[256](_ => -1);
    for i := 0 to 58
      invariant idx.Length == 256
      invariant forall ch: byte :: idx[ch] == IndexBelow(ch, i)
    {
      idx[DigitChar(i)] := i;
    }
  }

  // ----- the two directions on values

  predicate Valid(s: GoString) {
    forall i :: 0 <= i < |s| ==> CharDigit(s[i]) >= 0
  }

  function DigitsOf(s: GoString): (ds: seq<nat>)
    requires Valid(s)
    ensures |ds| == |s| && Below(58, ds)
  {
    seq(|s|, i requires 0 <= i < |s| => CharDigit(s[i]))
  }

  function Chars(ds: seq<nat>): (s: GoString)
    requires Below(58, ds)
    ensures |s| == |ds|
  {
    seq(|ds|, i requires 0 <= i < |ds| => DigitChar(ds[i]))
  }

  /** Below(256) digits as bytes. */
  function AsBytes(ds: seq<nat>): (b: seq<byte>)
    requires Below(256, ds)
    ensures b == ds
  {
    ds
  }

  function Decode(s: GoString): Option<seq<byte>> {
    if Valid(s) then Some(AsBytes(Recode(58, 256, DigitsOf(s)))) else None
  }

  function Encode(b: seq<byte>): GoString {
    Chars(Recode(256, 58, b))
  }

  lemma CharsValid(ds: seq<nat>)
    requires Below(58, ds)
    ensures Valid(Chars(ds)) && DigitsOf(Chars(ds)) == ds
  {
    forall i | 0 <= i < |ds| ensures CharDigit(Chars(ds)[i]) == ds[i] {
      CharDigitInverse(ds[i]);
    }
  }

  lemma CharsOfDigits(s: GoString)
    requires Valid(s)
    ensures Chars(DigitsOf(s)) == s
  {
  }

  /** Every byte string survives encoding and decoding. */
  lemma DecodeEncode(b: seq<byte>)
    ensures Decode(Encode(b)) == Some(b)
  {
    var ds := Recode(256, 58, b);
    CharsValid(ds);
    RecodeRoundTrip(256, 58, b);
  }

  /** Every valid string survives decoding and encoding; exactly the valid strings decode. */
  lemma EncodeDecode(s: GoString)
    ensures Decode(s).Some? <==> Valid(s)
    ensures Decode(s).Some? ==> Encode(Decode(s).value) == s
  {
    if Valid(s) {
      RecodeRoundTrip(58, 256, DigitsOf(s));
      CharsOfDigits(s);
    }
  }

  /**
   What the bytes stand for: decoding accepts exactly the strings over the alphabet, and yields
   exactly the bytes of the same number with one zero byte for each leading '1'.
   */
  lemma DecodeExactly(s: GoString, b: seq<byte>)
    ensures Decode(s) == Some(b) <==>
              && Valid(s)
              && Value(256, b) == Value(58, DigitsOf(s))
              && LeadingZeros(b) == LeadingZeros(DigitsOf(s))
  {
    hide Recode, Value, LeadingZeros, DigitsOf;
    if Valid(s) {
      RecodeExactly(58, 256, DigitsOf(s), b);
    }
  }

  /** Encoding yields the string of the same number with one leading '1' for each zero byte. */
  lemma EncodeExactly(b: seq<byte>, s: GoString)
    ensures Encode(b) == s <==>
              && Valid(s)
              && Value(58, DigitsOf(s)) == Value(256, b)
              && LeadingZeros(DigitsOf(s)) == LeadingZeros(b)
  {
    hide Encode, Decode, Value, LeadingZeros, DigitsOf;
    DecodeExactly(s, b);
    DecodeEncode(b);
    EncodeDecode(s);
  }

  /** Leading zero digits of a string are its leading '1's. */
  lemma LeadingOnesAreZeros(s: GoString, i: nat)
    requires Valid(s) && i < |s|
    ensures i < LeadingZeros(DigitsOf(s)) ==> s[i] == 49
    ensures i == LeadingZeros(DigitsOf(s)) ==> s[i] != 49
  {
    CharDigitInverse(0);
    assert DigitsOf(s)[i] == CharDigit(s[i]);
    assert DigitChar(CharDigit(s[i])) == s[i];
  }

  // ----- decodePubkey32

  datatype PubkeyError = BadBase58 | BadLength

  function DecodePubkey32(s: GoString): Result<Digest, PubkeyError> {
    match Decode(s)
    case None => Err(BadBase58)
    case Some(raw) => if |raw| == 32 then Ok(raw) else Err(BadLength)
  }

  /** A key is accepted exactly when the string decodes to it and it has 32 bytes; either failure has its error. */
  lemma PubkeyExactly(s: GoString, k: Digest)
    ensures DecodePubkey32(s) == Ok(k) <==> Decode(s) == Some(k)
    ensures DecodePubkey32(s).Ok? <==> Decode(s).Some? && |Decode(s).value| == 32
    ensures DecodePubkey32(s) == Err(BadBase58) <==> exists i :: 0 <= i < |s| && !InAlphabet(s[i])
  {
    hide CharDigit, Recode, DigitsOf, InAlphabet;
    forall i | 0 <= i < |s| ensures CharDigit(s[i]) >= 0 <==> InAlphabet(s[i]) {
      AlphabetExactly(s[i], s[i]);
    }
  }

  /** A key has one spelling. */
  lemma PubkeySpellingUnique(s: GoString, t: GoString)
    requires DecodePubkey32(s).Ok? && DecodePubkey32(s) == DecodePubkey32(t)
    ensures s == t
  {
    EncodeDecode(s);
    EncodeDecode(t);
  }

  // ----- the source's loops

  /** decodeBase58: accumulate, then prepend one zero byte for each leading '1'. */
  method DecodeBase58(idx: array<int>, s: GoString) returns (r: Option<seq<byte>>)
    requires idx.Length == 256 && forall ch: byte :: idx[ch] == CharDigit(ch)
    ensures r == Decode(s)
  {
    hide CharDigit, Value, DigitsOf;
    var n := 0;
    assert Value(58, DigitsOf(s[..0])) == 0 by { NoDigits(s); }
    for i := 0 to |s|
      invariant Valid(s[..i]) && n == Value(58, DigitsOf(s[..i]))
    {
      var v := idx[s[i]];
      if v < 0 {
        return None;
      }
      DigitsStep(s, i);
      n := n * 58;
      n := n + v;
    }
    assert s[..|s|] == s;
    var body := AsBytes(Digits(256, n));
    var zeros := CountOnes(s);
    var out := AfterZeros(zeros, body);
    return Some(out);
  }

  lemma NoDigits(s: GoString)
    ensures Value(58, DigitsOf(s[..0])) == 0
  {
  }

  method CountOnes(s: GoString) returns (zeros: nat)
    requires Valid(s)
    ensures zeros == LeadingZeros(DigitsOf(s))
  {
    zeros := 0;
    while zeros < |s| && s[zeros] == DigitChar(0)
      invariant zeros <= |s| && forall i :: 0 <= i < zeros ==> s[i] == DigitChar(0)
    {
      zeros := zeros + 1;
    }
    LeadingOnes(s, zeros);
  }

  /** `copy(out[zeros:], body)` into a zeroed buffer. */
  method AfterZeros(zeros: nat, body: seq<byte>) returns (r: seq<byte>)
    ensures r == Zeros(zeros) + body
  {
    var out := new byte[zeros + |body|](_ => 0);
    for i := 0 to |body|
      invariant forall k :: 0 <= k < zeros ==> out[k] == 0
      invariant forall k :: 0 <= k < i ==> out[zeros + k] == body[k]
    {
      out[zeros + i] := body[i];
    }
    r := out[..];
    forall k | zeros <= k < |r| ensures r[k] == body[k - zeros] {
      assert r[k] == out[zeros + (k - zeros)];
    }
  }

  lemma DigitsStep(s: GoString, i: nat)
    requires i < |s| && Valid(s[..i]) && CharDigit(s[i]) >= 0
    ensures Valid(s[..i + 1])
    ensures Value(58, DigitsOf(s[..i + 1])) == Value(58, DigitsOf(s[..i])) * 58 + CharDigit(s[i])
  {
    hide CharDigit;
    var t := s[..i + 1];
    forall k | 0 <= k < |t| ensures CharDigit(t[k]) >= 0 {
      assert k < i ==> t[k] == s[..i][k];
    }
    assert DigitsOf(t)[..i] == DigitsOf(s[..i]);
  }

  /** '1' is the digit zero, so leading '1's are leading zero digits. */
  lemma LeadingOnes(s: GoString, z: nat)
    requires Valid(s) && z <= |s| && forall i :: 0 <= i < z ==> s[i] == DigitChar(0)
    requires z < |s| ==> s[z] != DigitChar(0)
    ensures LeadingZeros(DigitsOf(s)) == z
  {
    CharDigitInverse(0);
    var ds := DigitsOf(s);
    if z < |s| {
      assert DigitChar(CharDigit(s[z])) == s[z];
    }
    assert ds == Zeros(z) + ds[z..];
    LeadingZerosOf(z, ds[z..]);
  }

  function Reverse<T>(s: seq<T>): (r: seq<T>)
    ensures |r| == |s|
  {
    seq(|s|, i requires 0 <= i < |s| => s[|s| - 1 - i])
  }

  /** The final loop of EncodeBase58: swap ends inwards. */
  method ReverseInPlace(a: array<byte>)
    modifies a
    ensures a[..] == Reverse(old(a[..]))
  {
    var i, j := 0, a.Length - 1;
    while i < j
      invariant 0 <= i && i + j == a.Length - 1 && i <= j + 1
      invariant forall k :: 0 <= k < i || j < k < a.Length ==> a[k] == old(a[..])[a.Length - 1 - k]
      invariant forall k :: i <= k <= j ==> a[k] == old(a[..])[k]
    {
      a[i], a[j] := a[j], a[i];
      i, j := i + 1, j - 1;
    }
  }

  /** EncodeBase58: count zero bytes, peel off digits, append '1's, reverse. */
  method EncodeBase58(b: seq<byte>) returns (s: GoString)
    ensures s == Encode(b)
  {
    hide DigitChar, Ordinal, Chars, Reverse, Value;
    var zeros := CountZeroBytes(b);
    var n := Value(256, b);
    var rev := PeelDigits(n);
    ghost var body := Chars(Digits(58, n));
    CharsNone();
    assert Chars([]) + body == body;
    for i := 0 to zeros
      invariant Reverse(rev) == Chars(Zeros(i)) + body
    {
      ReverseAppend(rev, DigitChar(0));
      CharsZeros(i, body);
      rev := rev + [DigitChar(0)];
    }
    CharsConcat(Zeros(zeros), Digits(58, n));
    var a := new byte[|rev|](i requires 0 <= i < |rev| => rev[i]);
    assert a[..] == rev;
    ReverseInPlace(a);
    s := a[..];
  }

  method CountZeroBytes(b: seq<byte>) returns (zeros: nat)
    ensures zeros == LeadingZeros(b)
  {
    zeros := 0;
    while zeros < |b| && b[zeros] == 0
      invariant zeros <= |b| && forall i :: 0 <= i < zeros ==> b[i] == 0
    {
      zeros := zeros + 1;
    }
    assert b == Zeros(zeros) + b[zeros..];
    LeadingZerosOf(zeros, b[zeros..]);
  }

  /** The digit-append loop: characters least significant first. */
  method PeelDigits(n: nat) returns (rev: seq<byte>)
    ensures Reverse(rev) == Chars(Digits(58, n))
  {
    hide DigitChar, Ordinal, Chars, Reverse;
    var k := n;
    rev := [];
    while k > 0
      invariant Chars(Digits(58, n)) == Chars(Digits(58, k)) + Reverse(rev)
      decreases k
    {
      CharsConcat(Digits(58, k / 58), [k % 58]);
      CharsOne(k % 58);
      ReverseAppend(rev, DigitChar(k % 58));
      ConcatAssoc(Chars(Digits(58, k / 58)), [DigitChar(k % 58)], Reverse(rev));
      rev := rev + [DigitChar(k % 58)];
      k := k / 58;
    }
    CharsNone();
    assert Chars([]) + Reverse(rev) == Reverse(rev);
  }

  lemma ReverseAppend<T>(s: seq<T>, x: T)
    ensures Reverse(s + [x]) == [x] + Reverse(s)
  {
  }

  lemma CharsConcat(a: seq<nat>, b: seq<nat>)
    requires Below(58, a) && Below(58, b)
    ensures Below(58, a + b) && Chars(a + b) == Chars(a) + Chars(b)
  {
    hide DigitChar;
  }

  lemma CharsOne(d: nat)
    requires d < 58
    ensures Below(58, [d]) && Chars([d]) == [DigitChar(d)]
  {
    hide DigitChar;
  }

  lemma CharsNone()
    ensures Chars([]) == [] && Reverse<byte>([]) == []
  {
  }

  lemma CharsZeros(i: nat, body: seq<byte>)
    ensures Chars(Zeros(i + 1)) + body == [DigitChar(0)] + (Chars(Zeros(i)) + body)
  {
    assert Zeros(i + 1) == [0] + Zeros(i);
    CharsConcat([0], Zeros(i));
    CharsOne(0);
  }
}
