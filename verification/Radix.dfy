/** Positional numerals, most significant digit first, as math/big reads and writes them. */
module Radix {
  import opened Bytes

  function Value(base: nat, ds: seq<nat>): nat {
    if ds == [] then 0 else Value(base, ds[..|ds| - 1]) * base + ds[|ds| - 1]
  }

  /** The shortest numeral of n; none for zero. */
  function Digits(base: nat, n: nat): (ds: seq<nat>)
    requires base >= 2
    ensures forall i :: 0 <= i < |ds| ==> ds[i] < base
    ensures ds == [] <==> n == 0
    decreases n
  {
    if n == 0 then [] else
      DivSmaller(n, base);
      Digits(base, n / base) + [n % base]
  }

  ghost predicate Below(base: nat, ds: seq<nat>) {
    forall i :: 0 <= i < |ds| ==> ds[i] < base
  }

  function LeadingZeros(ds: seq<nat>): (z: nat)
    ensures z <= |ds|
    ensures forall i :: 0 <= i < z ==> ds[i] == 0
    ensures z < |ds| ==> ds[z] != 0
  {
    if ds == [] || ds[0] != 0 then 0 else 1 + LeadingZeros(ds[1..])
  }

  function Zeros(z: nat): seq<nat> { seq(z, _ => 0) }

  /** The same number in another base, leading zeros carried over one for one. */
  function Recode(from: nat, to: nat, ds: seq<nat>): (r: seq<nat>)
    requires to >= 2
    ensures Below(to, r)
  {
    Zeros(LeadingZeros(ds)) + Digits(to, Value(from, ds))
  }

  lemma DivSmaller(n: nat, base: nat)
    requires base >= 2 && n > 0
    ensures n / base < n
  {
  }

  lemma {:induction false} MulApart(x: nat, y: nat, b: nat)
    requires x < y
    ensures x * b + b <= y * b
    decreases y
  {
    assert y * b == (y - 1) * b + b;
    if x + 1 == y {
    } else {
      MulApart(x, y - 1, b);
    }
  }

  lemma QuotientUnique(q: nat, d: nat, q': nat, d': nat, b: nat)
    requires d < b && d' < b && q * b + d == q' * b + d'
    ensures q == q' && d == d'
  {
    if q < q' {
      MulApart(q, q', b);
    } else if q' < q {
      MulApart(q', q, b);
    }
  }

  lemma DivModUnique(q: nat, base: nat, d: nat)
    requires d < base
    ensures (q * base + d) / base == q && (q * base + d) % base == d
  {
    var n := q * base + d;
    QuotientUnique(q, d, n / base, n % base, base);
  }

  lemma Positive(v: nat, base: nat, d: nat, none: bool)
    requires base >= 2 && (if none then d > 0 else v > 0)
    ensures v * base + d > 0
  {
    if !none {
      assert v * base >= base;
    }
  }

  lemma ValueAppend(base: nat, ds: seq<nat>, d: nat)
    ensures Value(base, ds + [d]) == Value(base, ds) * base + d
  {
    TakeOfAppend(ds, d, 0);
  }

  lemma DivModIdentity(n: nat, base: nat)
    requires base > 0
    ensures (n / base) * base + n % base == n
  {
  }

  lemma DigitsUnfold(base: nat, n: nat)
    requires base >= 2 && n > 0
    ensures Digits(base, n) == Digits(base, n / base) + [n % base]
  {
  }

  lemma {:induction false} ValueOfDigits(base: nat, n: nat)
    requires base >= 2
    ensures Value(base, Digits(base, n)) == n
    decreases n
  {
    if n == 0 {
    } else {
      DivSmaller(n, base);
      ValueOfDigits(base, n / base);
      ValueAppend(base, Digits(base, n / base), n % base);
      DivModIdentity(n, base);
    }
  }

  lemma {:induction false} FirstDigitNonzero(base: nat, n: nat)
    requires base >= 2 && n > 0
    ensures Digits(base, n)[0] != 0
    decreases n
  {
    DivSmaller(n, base);
    if n / base == 0 {
    } else {
      FirstDigitNonzero(base, n / base);
    }
  }

  /** A numeral without leading zeros is the shortest numeral of its value. */
  lemma {:induction false} DigitsOfValue(base: nat, ds: seq<nat>)
    requires base >= 2 && Below(base, ds) && (ds == [] || ds[0] != 0)
    ensures Digits(base, Value(base, ds)) == ds
    decreases |ds|
  {
    if ds == [] {
    } else {
      var init, d := ds[..|ds| - 1], ds[|ds| - 1];
      DigitsOfValue(base, init);
      var v := Value(base, init);
      DivModUnique(v, base, d);
      Positive(v, base, d, init == []);
      InitLast(ds);
    }
  }

  lemma {:induction false} LeadingZerosWorthless(base: nat, z: nat, ds: seq<nat>)
    ensures Value(base, Zeros(z) + ds) == Value(base, ds)
    decreases z + |ds|
  {
    var all := Zeros(z) + ds;
    if z == 0 && ds == [] {
    } else if ds != [] {
      assert all[..|all| - 1] == Zeros(z) + ds[..|ds| - 1];
      LeadingZerosWorthless(base, z, ds[..|ds| - 1]);
    } else {
      assert all[..|all| - 1] == Zeros(z - 1) + ds;
      LeadingZerosWorthless(base, z - 1, ds);
    }
  }

  lemma {:induction false} LeadingZerosOf(z: nat, ds: seq<nat>)
    requires ds == [] || ds[0] != 0
    ensures LeadingZeros(Zeros(z) + ds) == z
  {
    if z == 0 {
    } else {
      LeadingZerosOf(z - 1, ds);
      assert (Zeros(z) + ds)[1..] == Zeros(z - 1) + ds;
    }
  }

  function Pow(base: nat, n: nat): nat {
    if n == 0 then 1 else base * Pow(base, n - 1)
  }

  lemma MulAssoc(a: nat, b: nat, c: nat)
    ensures (a * b) * c == a * (b * c)
  {
  }

  lemma Distribute(a: nat, b: nat, c: nat)
    ensures (a + b) * c == a * c + b * c
  {
  }

  /** Place value: digits weigh a power of the base for each digit to their right. */
  lemma {:induction false} ValueConcat(base: nat, a: seq<nat>, b: seq<nat>)
    ensures Value(base, a + b) == Value(base, a) * Pow(base, |b|) + Value(base, b)
    decreases |b|
  {
    hide Value;
    if b == [] {
      assert a + b == a;
      assert Value(base, b) == 0 by { ValueNone(base); }
    } else {
      var init, d := b[..|b| - 1], b[|b| - 1];
      InitLast(b);
      ConcatAssoc(a, init, [d]);
      ValueConcat(base, a, init);
      ValueAppend(base, a + init, d);
      ValueAppend(base, init, d);
      var v, w, p := Value(base, a), Value(base, init), Pow(base, |init|);
      Distribute(v * p, w, base);
      MulAssoc(v, p, base);
      assert p * base == Pow(base, |b|);
    }
  }

  lemma ValueNone(base: nat)
    ensures Value(base, []) == 0
  {
  }

  /** One digit stands for itself. */
  lemma ValueOne(base: nat, d: nat)
    ensures Value(base, [d]) == d
  {
    ValueNone(base);
    ValueAppend(base, [], d);
    assert [] + [d] == [d];
  }

  /** Leading zeros and value together determine a numeral. */
  lemma ZerosAndValueDetermine(base: nat, ds: seq<nat>)
    requires base >= 2 && Below(base, ds)
    ensures ds == Zeros(LeadingZeros(ds)) + Digits(base, Value(base, ds))
  {
    hide Value, Digits;
    var z := LeadingZeros(ds);
    assert ds == Zeros(z) + ds[z..];
    LeadingZerosWorthless(base, z, ds[z..]);
    DigitsOfValue(base, ds[z..]);
  }

  /** Changing base gives exactly the numeral of the same number with as many leading zeros. */
  lemma RecodeExactly(from: nat, to: nat, ds: seq<nat>, r: seq<nat>)
    requires to >= 2 && Below(to, r)
    ensures r == Recode(from, to, ds) <==> Value(to, r) == Value(from, ds) && LeadingZeros(r) == LeadingZeros(ds)
  {
    hide Value, LeadingZeros;
    var z, body := LeadingZeros(ds), Digits(to, Value(from, ds));
    if body != [] {
      FirstDigitNonzero(to, Value(from, ds));
    }
    LeadingZerosOf(z, body);
    LeadingZerosWorthless(to, z, body);
    ValueOfDigits(to, Value(from, ds));
    ZerosAndValueDetermine(to, r);
  }

  /** Changing base and back is the identity, leading zeros included. */
  lemma RecodeRoundTrip(from: nat, to: nat, ds: seq<nat>)
    requires from >= 2 && to >= 2 && Below(from, ds)
    ensures Recode(to, from, Recode(from, to, ds)) == ds
  {
    hide Recode;
    var r := Recode(from, to, ds);
    RecodeExactly(from, to, ds, r);
    RecodeExactly(to, from, r, ds);
  }
}
