/** Base-10 amounts as math/big and strconv parse them. */
module Decimal {
  import opened Bytes
  import opened Radix

  /** One or more of '0'..'9'. */
  predicate AllDigits(s: GoString) {
    s != [] && forall i :: 0 <= i < |s| ==> 48 <= s[i] <= 57
  }

  function DigitValue(s: GoString): nat
    requires AllDigits(s)
  {
    Value(10, seq(|s|, i requires 0 <= i < |s| => s[i] - 48))
  }

  /** big.Int.SetString(s, 10): an optional sign, then digits. */
  function ParseBig(s: GoString): Option<int> {
    var signed := s != [] && (s[0] == 43 || s[0] == 45);
    var body := if signed then s[1..] else s;
    if !AllDigits(body) then None
    else
      var v: int := DigitValue(body);
      if signed && s[0] == 45 then Some(-v) else Some(v)
  }

  /** strconv.ParseUint(s, 10, 64): digits only, and the value must fit. */
  function ParseUint64(s: GoString): (v: Option<nat>)
    ensures v.Some? ==> v.value < TWO64
  {
    if AllDigits(s) && DigitValue(s) < TWO64 then Some(DigitValue(s)) else None
  }

  /** The value of a digit text, one character at a time. */
  lemma DigitValueStep(s: GoString, ch: byte)
    requires 48 <= ch <= 57
    ensures AllDigits([ch]) && DigitValue([ch]) == ch - 48
    ensures AllDigits(s) ==> AllDigits(s + [ch]) && DigitValue(s + [ch]) == 10 * DigitValue(s) + (ch - 48)
  {
    hide Value;
    assert seq(1, i requires 0 <= i < 1 => [ch][i] - 48) == [ch - 48];
    ValueOne(10, ch - 48);
    if AllDigits(s) {
      var t := s + [ch];
      var ds := seq(|s|, i requires 0 <= i < |s| => s[i] - 48);
      assert seq(|t|, i requires 0 <= i < |t| => t[i] - 48) == ds + [ch - 48];
      ValueAppend(10, ds, ch - 48);
    }
  }

  /**
   What both parsers read: one digit character is its digit, and each further one makes ten times
   the number so far plus its digit. A sign is read by SetString alone. Nothing else is a number.
   */
  lemma ReadsDecimal(s: GoString, ch: byte)
    requires 48 <= ch <= 57
    ensures ParseBig([ch]) == Some(ch - 48) && ParseUint64([ch]) == Some(ch - 48)
    ensures AllDigits(s) ==>
              && ParseBig(s).Some?
              && var v := 10 * ParseBig(s).value + (ch - 48);
                 && ParseBig(s + [ch]) == Some(v)
                 && ParseUint64(s + [ch]) == (if v < TWO64 then Some(v) else None)
    ensures AllDigits(s) ==>
              && ParseBig([43] + s) == ParseBig(s)
              && ParseBig([45] + s) == Some(-ParseBig(s).value)
    ensures AllDigits(s) ==> ParseUint64(s) == if ParseBig(s).value < TWO64 then Some(ParseBig(s).value) else None
    ensures var body := if s != [] && (s[0] == 43 || s[0] == 45) then s[1..] else s;
            ParseBig(s).Some? <==> body != [] && forall i :: 0 <= i < |body| ==> 48 <= body[i] <= 57
    ensures AllDigits(s) <==> s != [] && forall i :: 0 <= i < |s| ==> 48 <= s[i] <= 57
    ensures ParseUint64(s).Some? ==> AllDigits(s)
  {
    hide DigitValue;
    DigitValueStep(s, ch);
    assert ([43] + s)[1..] == s && ([45] + s)[1..] == s;
  }

  /** n as it is written in decimal, without leading zeros. */
  function Written(n: nat): GoString
    decreases n
  {
    if n < 10 then [48 + n] else Written(n / 10) + [48 + n % 10]
  }

  lemma {:induction false} WrittenValue(n: nat)
    ensures AllDigits(Written(n)) && DigitValue(Written(n)) == n
    decreases n
  {
    hide DigitValue;
    if n < 10 {
      DigitValueStep([], 48 + n);
    } else {
      WrittenValue(n / 10);
      DigitValueStep(Written(n / 10), 48 + n % 10);
    }
  }

  /** Every number is read from its decimal writing, by ParseUint exactly below 2^64; after '-', its negative. */
  lemma WrittenIsRead(n: nat)
    ensures ParseBig(Written(n)) == Some(n)
    ensures ParseUint64(Written(n)) == if n < TWO64 then Some(n) else None
    ensures ParseBig([45] + Written(n)) == Some(-(n as int))
  {
    hide DigitValue, Written;
    WrittenValue(n);
    assert ([45] + Written(n))[1..] == Written(n);
  }

  /** Whatever ParseUint accepts, SetString reads as the same number. */
  lemma ParsersAgree(s: GoString)
    requires ParseUint64(s).Some?
    ensures ParseBig(s) == Some(ParseUint64(s).value)
  {
  }

  /** SetString accepts more: exactly the signed numbers and those of 2^64 and up. */
  lemma ParsersDiffer(s: GoString)
    requires ParseBig(s).Some?
    ensures ParseUint64(s).None? <==> s[0] == 43 || s[0] == 45 || ParseBig(s).value >= TWO64
  {
  }
}

/** The intent binding of a payment (gate/binding.go). */
module Binding {
  import opened Bytes
  import opened Hashing
  import opened Maps
  import opened Radix
  import opened Base58
  import opened Decimal

  function DomainTag(): GoString { Ascii("spt-txn/x402-payment/v1") }

  const LAYOUT_VERSION: byte := 1

  datatype BindError =
    | UnknownScheme | UnknownNetwork | BadKey(e: PubkeyError)
    | BadAmount | AmountNegative | AmountOverflow

  datatype Allowlist = Allowlist(schemes: map<GoString, byte>, networks: map<GoString, byte>)

  datatype Requirements = Requirements(
    scheme: GoString, network: GoString, asset: GoString, payTo: GoString, maxAmount: GoString, resource: GoString)

  /** A payment with its fields resolved. */
  datatype Payment =
    Payment(schemeTag: byte, networkTag: byte, asset: Digest, payTo: Digest, amount: int, resource: GoString)

  function Amount16LE(a: int): Result<seq<byte>, BindError> {
    if a < 0 then Err(AmountNegative)
    else if a >= TWO128 then Err(AmountOverflow)
    else Ok(LittleEndian(a, 16))
  }

  /** amount16LE: reverse the big-endian bytes into a zeroed 16-byte array. */
  method FillAmount16LE(a: int) returns (r: Result<seq<byte>, BindError>)
    ensures r == Amount16LE(a)
  {
    hide LittleEndian, Digits, Pow256;
    if a < 0 { return Err(AmountNegative); }
    if a >= TWO128 { return Err(AmountOverflow); }
    Pow256Values();
    LittleEndianReverses(a, 16);
    var be: seq<nat> := Digits(256, a);
    var out := new byte[16](_ => 0);
    for i := 0 to |be|
      invariant forall k :: 0 <= k < i ==> out[k] == be[|be| - 1 - k]
      invariant forall k :: i <= k < 16 ==> out[k] == 0
    {
      out[i] := be[|be| - 1 - i];
    }
    assert out[..] == Reverse<nat>(be) + Zeros(16 - |be|);
    return Ok(out[..]);
  }

  lemma NoBytes()
    ensures LittleEndian(0, 0) == Reverse<nat>(Digits(256, 0)) + Zeros(0)
  {
  }

  lemma {:induction false} LittleEndianReverses(v: nat, n: nat)
    requires v < Pow256(n)
    ensures |Digits(256, v)| <= n
    ensures LittleEndian(v, n) == Reverse(Digits(256, v)) + Zeros(n - |Digits(256, v)|)
    decreases n
  {
    hide LittleEndian, Digits;
    if n == 0 {
      NoBytes();
    } else {
      LittleEndianReverses(v / 256, n - 1);
      LittleEndianUnfold(v, n);
      if v == 0 {
        assert Reverse<nat>([]) + Zeros(n) == [0] + (Reverse<nat>([]) + Zeros(n - 1));
      } else {
        var rest := Digits(256, v / 256);
        DigitsUnfold(256, v);
        ReverseAppend(rest, v % 256);
        ConcatAssoc([v % 256], Reverse(rest), Zeros(n - 1 - |rest|));
      }
    }
  }

  function Preimage(H: HashFn, p: Payment, nonce: Digest): seq<byte>
    requires 0 <= p.amount < TWO128
  {
    DomainTag() + [0] + [LAYOUT_VERSION] + [p.schemeTag] + [p.networkTag]
    + p.asset + p.payTo + LittleEndian(p.amount, 16) + H(p.resource) + nonce
  }

  /** The resolution steps of ComputeBinding, in source order. */
  function Resolve(al: Allowlist, pr: Requirements): (r: Result<Payment, BindError>)
    ensures r.Ok? ==> 0 <= r.value.amount < TWO128
  {
    if pr.scheme !in al.schemes then Err(UnknownScheme)
    else if pr.network !in al.networks then Err(UnknownNetwork)
    else
      match DecodePubkey32(pr.asset)
      case Err(e) => Err(BadKey(e))
      case Ok(asset) =>
        match DecodePubkey32(pr.payTo)
        case Err(e) => Err(BadKey(e))
        case Ok(payTo) =>
          match ParseBig(pr.maxAmount)
          case None => Err(BadAmount)
          case Some(amount) =>
            match Amount16LE(amount)
            case Err(e) => Err(e)
            case Ok(_) => Ok(Payment(al.schemes[pr.scheme], al.networks[pr.network], asset, payTo, amount, pr.resource))
  }

  /**
   When a payment resolves and to what: each tag is the one its own name is mapped to, each key the
   decoding of its own string, the amount the number written. Otherwise the first failing field,
   in the order scheme, network, asset, recipient, amount, gives the error.
   */
  lemma ResolveExactly(al: Allowlist, pr: Requirements)
    ensures var r := Resolve(al, pr);
            var named := pr.scheme in al.schemes && pr.network in al.networks;
            var asset, payTo, amount := DecodePubkey32(pr.asset), DecodePubkey32(pr.payTo), ParseBig(pr.maxAmount);
            && (r.Ok? <==> named && asset.Ok? && payTo.Ok? && amount.Some? && 0 <= amount.value < TWO128)
            && (r.Ok? ==> r.value == Payment(al.schemes[pr.scheme], al.networks[pr.network], asset.value, payTo.value,
                                             amount.value, pr.resource))
            && (r == Err(UnknownScheme) <==> pr.scheme !in al.schemes)
            && (r == Err(UnknownNetwork) <==> pr.scheme in al.schemes && pr.network !in al.networks)
            && (forall e :: r == Err(BadKey(e)) <==>
                              named && (asset == Err(e) || (asset.Ok? && payTo == Err(e))))
            && (r == Err(BadAmount) <==> named && asset.Ok? && payTo.Ok? && amount.None?)
            && (r == Err(AmountNegative) <==>
                  named && asset.Ok? && payTo.Ok? && amount.Some? && amount.value < 0)
            && (r == Err(AmountOverflow) <==>
                  named && asset.Ok? && payTo.Ok? && amount.Some? && amount.value >= TWO128)
  {
    hide DecodePubkey32, ParseBig, LittleEndian;
  }

  function ComputeBinding(H: HashFn, al: Allowlist, pr: Requirements, nonce: Digest): Result<Digest, BindError> {
    match Resolve(al, pr)
    case Err(e) => Err(e)
    case Ok(p) => Ok(H(Preimage(H, p, nonce)))
  }

  /** The two strings hashed for a binding. */
  function BindInputs(H: HashFn, p: Payment, nonce: Digest): set<seq<byte>>
    requires 0 <= p.amount < TWO128
  {
    {p.resource, Preimage(H, p, nonce)}
  }

  /** The tag is the text spt-txn/x402-payment/v1. */
  lemma TagBytes()
    ensures DomainTag() == [115, 112, 116, 45, 116, 120, 110, 47, 120, 52, 48, 50, 45, 112, 97, 121, 109, 101, 110, 116,
                            47, 118, 49]
  {
  }

  /** Where each field sits: tag, 0x00, version, tags, keys, amount, resource hash, nonce. */
  lemma PreimageLayout(H: HashFn, p: Payment, nonce: Digest)
    requires 0 <= p.amount < TWO128
    ensures var b := Preimage(H, p, nonce);
            && |b| == 171
            && b[..23] == [115, 112, 116, 45, 116, 120, 110, 47, 120, 52, 48, 50, 45, 112, 97, 121, 109, 101, 110, 116,
                           47, 118, 49]
            && b[23] == 0 && b[24] == 1
            && b[25] == p.schemeTag && b[26] == p.networkTag
            && b[27..59] == p.asset && b[59..91] == p.payTo
            && FromLittleEndian(b[91..107]) == p.amount
            && b[107..139] == H(p.resource) && b[139..] == nonce
  {
    hide LittleEndian, FromLittleEndian, Pow256, DomainTag;
    var b := Preimage(H, p, nonce);
    TagBytes();
    assert b[..23] == DomainTag();
    Pow256Values();
    LittleEndianRoundTrip(p.amount, 16);
    assert b[91..107] == LittleEndian(p.amount, 16);
  }

  lemma PreimageInjective(H: HashFn, p: Payment, m: Digest, q: Payment, n: Digest)
    requires 0 <= p.amount < TWO128 && 0 <= q.amount < TWO128
    requires Preimage(H, p, m) == Preimage(H, q, n)
    ensures q == p.(resource := q.resource) && H(p.resource) == H(q.resource) && m == n
  {
    hide LittleEndian, DomainTag;
    var h := DomainTag() + [0] + [LAYOUT_VERSION];
    var ap, aq := LittleEndian(p.amount, 16), LittleEndian(q.amount, 16);
    var hp := h + [p.schemeTag] + [p.networkTag];
    var hq := h + [q.schemeTag] + [q.networkTag];
    SplitEqual(hp + p.asset + p.payTo + ap + H(p.resource), m, hq + q.asset + q.payTo + aq + H(q.resource), n);
    SplitEqual(hp + p.asset + p.payTo + ap, H(p.resource), hq + q.asset + q.payTo + aq, H(q.resource));
    SplitEqual(hp + p.asset + p.payTo, ap, hq + q.asset + q.payTo, aq);
    SplitEqual(hp + p.asset, p.payTo, hq + q.asset, q.payTo);
    SplitEqual(hp, p.asset, hq, q.asset);
    SplitEqual(h + [p.schemeTag], [p.networkTag], h + [q.schemeTag], [q.networkTag]);
    SplitEqual(h, [p.schemeTag], h, [q.schemeTag]);
    assert p.schemeTag == [p.schemeTag][0] == q.schemeTag;
    assert p.networkTag == [p.networkTag][0] == q.networkTag;
    Pow256Values();
    LittleEndianInjective(p.amount, q.amount, 16);
  }

  /** The same tags, spellings of both keys, number of atomic units and resource. */
  predicate SamePayment(al: Allowlist, p: Requirements, q: Requirements) {
    && p.scheme in al.schemes && q.scheme in al.schemes && al.schemes[p.scheme] == al.schemes[q.scheme]
    && p.network in al.networks && q.network in al.networks && al.networks[p.network] == al.networks[q.network]
    && p.asset == q.asset
    && p.payTo == q.payTo
    && ParseBig(p.maxAmount) == ParseBig(q.maxAmount)
    && p.resource == q.resource
  }

  lemma ResolveIsPayment(al: Allowlist, p: Requirements, q: Requirements)
    requires Resolve(al, p).Ok? && Resolve(al, q).Ok?
    ensures Resolve(al, p) == Resolve(al, q) <==> SamePayment(al, p, q)
  {
    hide DecodePubkey32, ParseBig;
    if Resolve(al, p) == Resolve(al, q) {
      PubkeySpellingUnique(p.asset, q.asset);
      PubkeySpellingUnique(p.payTo, q.payTo);
    }
  }

  /**
   Under one allowlist, two bindings agree exactly when they bind the same payment and
   nonce, or two of the four strings hashed collide.
   */
  lemma BindingIdentifiesPayment(H: HashFn, al: Allowlist, p: Requirements, m: Digest, q: Requirements, n: Digest)
    requires ComputeBinding(H, al, p, m).Ok? && ComputeBinding(H, al, q, n).Ok?
    ensures SamePayment(al, p, q) && m == n ==> ComputeBinding(H, al, p, m) == ComputeBinding(H, al, q, n)
    ensures ComputeBinding(H, al, p, m) == ComputeBinding(H, al, q, n) ==>
              (SamePayment(al, p, q) && m == n)
              || Collides(H, BindInputs(H, Resolve(al, p).value, m), BindInputs(H, Resolve(al, q).value, n))
  {
    hide Resolve, SamePayment, Preimage;
    ResolveIsPayment(al, p, q);
    if ComputeBinding(H, al, p, m) == ComputeBinding(H, al, q, n) {
      var a, b := Resolve(al, p).value, Resolve(al, q).value;
      var x, y := Preimage(H, a, m), Preimage(H, b, n);
      if x != y {
        CollisionFound(H, BindInputs(H, a, m), BindInputs(H, b, n), x, y);
      } else {
        PreimageInjective(H, a, m, b, n);
        if a.resource != b.resource {
          CollisionFound(H, BindInputs(H, a, m), BindInputs(H, b, n), a.resource, b.resource);
        }
      }
    }
  }

  /** If no two names share a tag, the binding also pins the scheme and network names. */
  lemma InjectiveTagsPinNames(al: Allowlist, p: Requirements, q: Requirements)
    requires SamePayment(al, p, q)
    requires OneToOne(al.schemes) && OneToOne(al.networks)
    ensures p.(maxAmount := q.maxAmount) == q
  {
    hide DecodePubkey32, ParseBig;
  }
}
