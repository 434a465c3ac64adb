/** encoding/hex: lower case out, either case in. */
module Hex {
  import opened Bytes

  function HexChar(n: nat): byte
    requires n < 16
  {
    if n < 10 then 48 + n else 87 + n
  }

  function HexValue(ch: byte): (v: int)
    ensures -1 <= v < 16
  {
    if 48 <= ch <= 57 then ch - 48
    else if 97 <= ch <= 102 then ch - 87
    else if 65 <= ch <= 70 then ch - 55
    else -1
  }

  function Encode(b: seq<byte>): (s: GoString)
    ensures |s| == 2 * |b|
  {
    if b == [] then [] else [HexChar(b[0] / 16), HexChar(b[0] % 16)] + Encode(b[1..])
  }

  function Decode(s: GoString): (r: Option<seq<byte>>)
    ensures r.Some? ==> |s| == 2 * |r.value|
  {
    if s == [] then Some([])
    else if |s| == 1 || HexValue(s[0]) < 0 || HexValue(s[1]) < 0 then None
    else
      match Decode(s[2..])
      case None => None
      case Some(rest) => Some([16 * HexValue(s[0]) + HexValue(s[1])] + rest)
  }

  lemma {:induction false} DecodeEncode(b: seq<byte>)
    ensures Decode(Encode(b)) == Some(b)
  {
    if b == [] {
    } else {
      DecodeEncode(b[1..]);
      var s := Encode(b);
      assert s[2..] == Encode(b[1..]);
      assert [b[0]] + b[1..] == b;
    }
  }

  /** No digit in A..F. */
  predicate LowerCase(s: GoString) {
    forall i :: 0 <= i < |s| ==> !(65 <= s[i] <= 70)
  }

  function LowerChar(ch: byte): byte {
    if 65 <= ch <= 70 then ch + 32 else ch
  }

  /** The same text with the digits A..F written a..f. */
  function Lower(s: GoString): (r: GoString)
    ensures |r| == |s|
  {
    seq(|s|, i requires 0 <= i < |s| => LowerChar(s[i]))
  }

  lemma LowerStep(s: GoString)
    requires |s| >= 2
    ensures Lower(s) == [LowerChar(s[0]), LowerChar(s[1])] + Lower(s[2..])
    ensures Lower(s)[2..] == Lower(s[2..])
  {
  }

  lemma EncodeStep(v: byte, rest: seq<byte>)
    ensures Encode([v] + rest) == [HexChar(v / 16), HexChar(v % 16)] + Encode(rest)
  {
    assert ([v] + rest)[1..] == rest;
  }

  /** One byte: either spelling has the same value, and the lower-case one is what is written back. */
  lemma PairRespelled(hi: byte, lo: byte)
    ensures HexValue(LowerChar(hi)) == HexValue(hi)
    ensures var v := 16 * HexValue(hi) + HexValue(lo);
            HexValue(hi) >= 0 && HexValue(lo) >= 0 ==>
              HexChar(v / 16) == LowerChar(hi) && HexChar(v % 16) == LowerChar(lo)
  {
  }

  /** Case does not change what is read, and what is read is written back in lower case. */
  lemma {:induction false} Respelled(s: GoString)
    ensures Decode(Lower(s)) == Decode(s)
    ensures Decode(s).Some? ==> Encode(Decode(s).value) == Lower(s)
    decreases |s|
  {
    hide HexValue, HexChar, LowerChar, Lower;
    if |s| <= 1 {
    } else {
      Respelled(s[2..]);
      LowerStep(s);
      PairRespelled(s[0], s[1]);
      PairRespelled(s[1], s[1]);
      if Decode(s).Some? {
        EncodeStep(16 * HexValue(s[0]) + HexValue(s[1]), Decode(s[2..]).value);
      }
    }
  }

  /** A character is the digit v exactly if it is v written in hexadecimal, in either case. */
  lemma HexValueExactly(ch: byte, v: nat)
    requires v < 16
    ensures HexValue(ch) == v <==> ch == Ascii("0123456789abcdef")[v] || ch == Ascii("0123456789ABCDEF")[v]
  {
    if v < 10 {
      assert "0123456789abcdef"[v] == "0123456789"[v] == "0123456789ABCDEF"[v];
    } else {
      assert "0123456789abcdef"[v] == "abcdef"[v - 10] && "0123456789ABCDEF"[v] == "ABCDEF"[v - 10];
    }
  }

  /** Two digits, the high one first, make the byte v. */
  predicate Pair(hi: byte, lo: byte, v: byte) {
    HexValue(hi) >= 0 && HexValue(lo) >= 0 && v == 16 * HexValue(hi) + HexValue(lo)
  }

  /** Byte k is written by the characters at 2k and 2k + 1. */
  ghost predicate Spells(s: GoString, b: seq<byte>) {
    |s| == 2 * |b| && forall k :: 0 <= k < |b| ==> Pair(s[2 * k], s[2 * k + 1], b[k])
  }

  lemma SpellsStep(s: GoString, b: seq<byte>)
    requires |s| >= 2 && b != []
    ensures Spells(s, b) <==> Pair(s[0], s[1], b[0]) && Spells(s[2..], b[1..])
  {
    hide Pair;
    var s', b' := s[2..], b[1..];
    if |s| == 2 * |b| {
      forall k | 0 <= k < |b'|
        ensures Pair(s'[2 * k], s'[2 * k + 1], b'[k]) == Pair(s[2 * (k + 1)], s[2 * (k + 1) + 1], b[k + 1])
      {
      }
      if Pair(s[0], s[1], b[0]) && Spells(s', b') {
        forall k | 0 <= k < |b| ensures Pair(s[2 * k], s[2 * k + 1], b[k]) {
          if k > 0 {
            assert Pair(s'[2 * (k - 1)], s'[2 * (k - 1) + 1], b'[k - 1]);
          }
        }
      }
    }
  }

  /** Exactly which text stands for which bytes. */
  lemma {:induction false} DecodeExactly(s: GoString, b: seq<byte>)
    ensures Decode(s) == Some(b) <==> Spells(s, b)
    decreases |s|
  {
    hide HexValue;
    if |s| <= 1 || b == [] {
    } else {
      hide Spells;
      DecodeExactly(s[2..], b[1..]);
      SpellsStep(s, b);
      assert b == [b[0]] + b[1..];
    }
  }

  /** The spelling comes back exactly when it was lower case: upper case is read and not kept. */
  lemma EncodeDecode(s: GoString)
    requires Decode(s).Some?
    ensures Encode(Decode(s).value) == s <==> LowerCase(s)
  {
    hide Encode, Decode;
    Respelled(s);
    assert forall i :: 0 <= i < |s| ==> Lower(s)[i] == LowerChar(s[i]);
  }
}

/** Verify-on-load persistence (translog/store.go), at the level of the logFile structure. */
module Store {
  import opened Bytes
  import opened Hashing
  import MV = MerkleView
  import Hex
  import opened Merkle
  import opened Record
  import opened TransLog
  import opened LogTheorems

  function Format(): GoString { Ascii("spt-txn/translog/v1") }

  const MAX_LOG_ENTRIES := 100_000

  datatype EntryFile = EntryFile(seqNo: uint64, decision: byte, binding: GoString, issuedAt: int64,
                                 prevHash: GoString, sig: GoString)

  datatype LogFile = LogFile(format: GoString, layout: byte, pubKey: GoString, root: GoString, count: int,
                             entries: seq<EntryFile>)

  datatype ReadError =
    | UnknownFormat | UnknownLayout | TooManyEntries | BadCount | BadPubkey | BadRoot
    | BadEntry(i: nat) | Unsound(fault: Fault) | RootMismatch

  datatype Loaded = Loaded(pub: Key, entries: seq<Entry>)

  // ----- encoding

  function EncodeEntry(e: Entry): EntryFile {
    EntryFile(e.record.seqNo, e.record.decision, Hex.Encode(e.record.binding), e.record.issuedAt,
              Hex.Encode(e.record.prevHash), Hex.Encode(e.signature))
  }

  function FileOf(c: Crypto, pub: Key, es: seq<Entry>): LogFile {
    LogFile(Format(), LAYOUT_VERSION, Hex.Encode(pub), Hex.Encode(RootOf(c, es)), |es|,
            seq(|es|, i requires 0 <= i < |es| => EncodeEntry(es[i])))
  }

  method Encode(l: Log) returns (f: LogFile)
    ensures f == FileOf(l.c, l.pub, l.entries)
  {
    var root := l.Root();
    var out: seq<EntryFile> := [];
    for i := 0 to |l.entries|
      invariant out == FileOf(l.c, l.pub, l.entries).entries[..i]
    {
      out := out + [EncodeEntry(l.entries[i])];
    }
    f := LogFile(Format(), LAYOUT_VERSION, Hex.Encode(l.pub), Hex.Encode(root), |l.entries|, out);
  }

  // ----- reading

  function Hex32(s: GoString): Option<Digest> {
    match Hex.Decode(s)
    case Some(b) => if |b| == 32 then Some(b) else None
    case None => None
  }

  function DecodeEntry(e: EntryFile): Option<Entry> {
    match (Hex32(e.binding), Hex32(e.prevHash), Hex.Decode(e.sig))
    case (Some(binding), Some(prev), Some(sig)) =>
      if |sig| == 64 then Some(Entry(Rec(e.seqNo, e.decision, binding, e.issuedAt, prev), sig)) else None
    case _ => None
  }

  /** Entries from index i on, or the first index that is malformed. */
  function DecodeEntries(es: seq<EntryFile>, i: nat): (r: Result<seq<Entry>, ReadError>)
    requires i <= |es|
    ensures r.Ok? ==> |r.value| == |es| - i
    decreases |es| - i
  {
    if i == |es| then Ok([])
    else
      match DecodeEntry(es[i])
      case None => Err(BadEntry(i))
      case Some(e) =>
        match DecodeEntries(es, i + 1)
        case Err(x) => Err(x)
        case Ok(rest) => Ok([e] + rest)
  }

  function ReadFile(c: Crypto, f: LogFile): Result<Loaded, ReadError> {
    if f.format != Format() then Err(UnknownFormat)
    else if f.layout != LAYOUT_VERSION then Err(UnknownLayout)
    else if |f.entries| > MAX_LOG_ENTRIES then Err(TooManyEntries)
    else if f.count != |f.entries| then Err(BadCount)
    else if !(Hex.Decode(f.pubKey).Some? && |Hex.Decode(f.pubKey).value| == 32) then Err(BadPubkey)
    else if Hex32(f.root).None? then Err(BadRoot)
    else
      match DecodeEntries(f.entries, 0)
      case Err(x) => Err(x)
      case Ok(es) =>
        var pub := Hex.Decode(f.pubKey).value;
        match FirstFault(c, pub, es, 0)
        case Some(fault) => Err(Unsound(fault))
        case None => if RootOf(c, es) != Hex32(f.root).value then Err(RootMismatch) else Ok(Loaded(pub, es))
  }

  method ReadLog(c: Crypto, f: LogFile) returns (r: Result<Log, ReadError>)
    ensures r.Ok? <==> ReadFile(c, f).Ok?
    ensures r.Ok? ==> fresh(r.value) && r.value.c == c
                      && ReadFile(c, f) == Ok(Loaded(r.value.pub, r.value.entries))
    ensures r.Err? ==> ReadFile(c, f) == Err(r.error)
  {
    if f.format != Format() { return Err(UnknownFormat); }
    if f.layout != LAYOUT_VERSION { return Err(UnknownLayout); }
    if |f.entries| > MAX_LOG_ENTRIES { return Err(TooManyEntries); }
    if f.count != |f.entries| { return Err(BadCount); }
    var pub := Hex.Decode(f.pubKey);
    if pub.None? || |pub.value| != 32 { return Err(BadPubkey); }
    var wantRoot := Hex32(f.root);
    if wantRoot.None? { return Err(BadRoot); }
    var entries: seq<Entry> := [];
    ghost var all := DecodeEntries(f.entries, 0);
    assert all.Ok? ==> entries + all.value == all.value;
    for i := 0 to |f.entries|
      invariant |entries| == i
      invariant match DecodeEntries(f.entries, i)
                case Ok(rest) => all == Ok(entries + rest)
                case Err(x) => all == Err(x)
    {
      var e := DecodeEntry(f.entries[i]);
      if e.None? { return Err(BadEntry(i)); }
      entries := Push(entries, e.value, DecodeEntries(f.entries, i + 1));
    }
    assert entries + [] == entries;
    var l := new Log.Of(c, pub.value, entries);
    var fault := l.Verify();
    if fault.Some? { return Err(Unsound(fault.value)); }
    var got := l.Root();
    if got != wantRoot.value { return Err(RootMismatch); }
    return Ok(l);
  }

  function Push(es: seq<Entry>, e: Entry, ghost rest: Result<seq<Entry>, ReadError>): (r: seq<Entry>)
    ensures r == es + [e]
    ensures rest.Ok? ==> es + ([e] + rest.value) == r + rest.value
  {
    es + [e]
  }

  // ----- theorems

  /** What Encode output needs to be read back. */
  ghost predicate Storable(c: Crypto, pub: Key, es: seq<Entry>) {
    && |pub| == 32
    && |es| <= 100_000
    && (forall i :: 0 <= i < |es| ==> |es[i].signature| == 64)
    && Sound(c, pub, es)
  }

  lemma EntryRoundTrip(e: Entry)
    ensures DecodeEntry(EncodeEntry(e)) == if |e.signature| == 64 then Some(e) else None
  {
    Hex.DecodeEncode(e.record.binding);
    Hex.DecodeEncode(e.record.prevHash);
    Hex.DecodeEncode(e.signature);
  }

  lemma {:induction false} EntriesRoundTrip(c: Crypto, pub: Key, es: seq<Entry>, i: nat)
    requires i <= |es|
    ensures var r := DecodeEntries(FileOf(c, pub, es).entries, i);
            && (r.Ok? <==> forall k :: i <= k < |es| ==> |es[k].signature| == 64)
            && (r.Ok? ==> r.value == es[i..])
    decreases |es| - i
  {
    hide EncodeEntry, DecodeEntry, Sound, RootOf;
    if i == |es| {
    } else {
      EntryRoundTrip(es[i]);
      EntriesRoundTrip(c, pub, es, i + 1);
      assert [es[i]] + es[i + 1..] == es[i..];
    }
  }

  /** A log survives Encode then ReadLog unchanged exactly when it is storable; otherwise it is refused. */
  lemma StoreRoundTrip(c: Crypto, pub: Key, es: seq<Entry>)
    ensures ReadFile(c, FileOf(c, pub, es)).Ok? <==> Storable(c, pub, es)
    ensures Storable(c, pub, es) ==> ReadFile(c, FileOf(c, pub, es)) == Ok(Loaded(pub, es))
  {
    hide FaultAt, RootOf, EncodeEntry, FirstFault;
    Hex.DecodeEncode(pub);
    Hex.DecodeEncode(RootOf(c, es));
    EntriesRoundTrip(c, pub, es, 0);
    assert es[0..] == es;
    FirstFaultIsFirst(c, pub, es, 0);
  }

  /** The entry is what the file's fields say, field by field. */
  predicate Holds(e: EntryFile, x: Entry) {
    && e.seqNo == x.record.seqNo && e.decision == x.record.decision && e.issuedAt == x.record.issuedAt
    && Hex.Decode(e.binding) == Some(x.record.binding)
    && Hex.Decode(e.prevHash) == Some(x.record.prevHash)
    && Hex.Decode(e.sig) == Some(x.signature)
    && |x.signature| == 64
  }

  /** 32-byte hashes and a 64-byte signature, in hexadecimal. */
  predicate WellFormed(e: EntryFile) {
    && Hex.Decode(e.binding).Some? && |Hex.Decode(e.binding).value| == 32
    && Hex.Decode(e.prevHash).Some? && |Hex.Decode(e.prevHash).value| == 32
    && Hex.Decode(e.sig).Some? && |Hex.Decode(e.sig).value| == 64
  }

  lemma DecodeEntryExactly(e: EntryFile, x: Entry)
    ensures DecodeEntry(e) == Some(x) <==> Holds(e, x)
    ensures DecodeEntry(e).Some? <==> WellFormed(e)
  {
    hide Hex.Decode;
  }

  /** Reading entries stops at the first malformed one, and otherwise yields what each of them says. */
  lemma {:induction false} DecodeEntriesExactly(es: seq<EntryFile>, i: nat)
    requires i <= |es|
    ensures var r := DecodeEntries(es, i);
            && (r.Ok? <==> forall k :: i <= k < |es| ==> WellFormed(es[k]))
            && (r.Ok? ==> forall k :: i <= k < |es| ==> Holds(es[k], r.value[k - i]))
            && (r.Err? ==> exists k :: i <= k < |es| && r.error == BadEntry(k) && !WellFormed(es[k])
                                       && forall j :: i <= j < k ==> WellFormed(es[j]))
    decreases |es| - i
  {
    hide DecodeEntry, Holds, WellFormed;
    if i == |es| {
    } else {
      var e := DecodeEntry(es[i]);
      DecodeEntryExactly(es[i], if e.Some? then e.value else Entry(Rec(0, 0, Zero(), 0, Zero()), []));
      DecodeEntriesExactly(es, i + 1);
    }
  }

  /** Every accepted file holds what its fields say: a log whose every record is genuine, with the file's root. */
  lemma AcceptedIsSound(c: Crypto, f: LogFile)
    requires ReadFile(c, f).Ok?
    ensures var l := ReadFile(c, f).value;
            && Storable(c, l.pub, l.entries)
            && Hex.Decode(f.pubKey) == Some(l.pub) && |l.pub| == 32
            && Hex.Decode(f.root) == Some(RootOf(c, l.entries))
            && Hex32(f.root) == Some(RootOf(c, l.entries))
            && f.count == |f.entries| == |l.entries| <= 100_000
            && (forall i :: 0 <= i < |l.entries| ==> Holds(f.entries[i], l.entries[i]))
            && AllGenuine(c, l.pub, l.entries)
  {
    hide FaultAt, RootOf, FirstFault, Genuine, DecodeEntries, Hex.Decode;
    var l := ReadFile(c, f).value;
    FirstFaultIsFirst(c, l.pub, l.entries, 0);
    SoundMeans(c, l.pub, l.entries);
    DecodeEntriesExactly(f.entries, 0);
    assert forall i :: 0 <= i < |l.entries| ==> Holds(f.entries[i], l.entries[i]);
  }

  /** The checks before any entry is read, each assuming those before it. */
  predicate Headed(f: LogFile) {
    && f.format == Ascii("spt-txn/translog/v1") && f.layout == 2
    && f.count == |f.entries| <= 100_000
    && Hex.Decode(f.pubKey).Some? && |Hex.Decode(f.pubKey).value| == 32
    && Hex.Decode(f.root).Some? && |Hex.Decode(f.root).value| == 32
  }

  /**
   Why a file is refused. A header field is at fault, or else the first malformed entry, or else the
   first record that is not numbered, linked and signed, or else the root; and each has its own error.
   */
  lemma RefusedExactly(c: Crypto, f: LogFile) returns (es: seq<Entry>)
    ensures var r := ReadFile(c, f);
            var known := f.format == Ascii("spt-txn/translog/v1");
            var small := known && f.layout == 2 && |f.entries| <= 100_000;
            var keyed := small && f.count == |f.entries| && Hex.Decode(f.pubKey).Some?
                         && |Hex.Decode(f.pubKey).value| == 32;
            && (r == Err(UnknownFormat) <==> !known)
            && (r == Err(UnknownLayout) <==> known && f.layout != 2)
            && (r == Err(TooManyEntries) <==> known && f.layout == 2 && |f.entries| > 100_000)
            && (r == Err(BadCount) <==> small && f.count != |f.entries|)
            && (r == Err(BadPubkey) <==> small && f.count == |f.entries| && !keyed)
            && (r == Err(BadRoot) <==> keyed && !Headed(f))
    ensures forall i: nat :: ReadFile(c, f) == Err(BadEntry(i)) ==>
                          && Headed(f) && i < |f.entries| && !WellFormed(f.entries[i])
                          && forall j :: 0 <= j < i ==> WellFormed(f.entries[j])
    ensures Headed(f) && (exists i :: 0 <= i < |f.entries| && !WellFormed(f.entries[i])) ==>
              ReadFile(c, f).Err? && ReadFile(c, f).error.BadEntry?
    ensures Headed(f) && (forall i :: 0 <= i < |f.entries| ==> WellFormed(f.entries[i])) ==>
              && |es| == |f.entries| && (forall i :: 0 <= i < |es| ==> Holds(f.entries[i], es[i]))
              && var r, pub := ReadFile(c, f), Hex.Decode(f.pubKey).value;
                 if AllGenuine(c, pub, es)
                 then r == if Hex.Decode(f.root) == Some(RootOf(c, es)) then Ok(Loaded(pub, es)) else Err(RootMismatch)
                 else r.Err? && r.error.Unsound? && FirstFailure(c, pub, es, r.error.fault)
  {
    hide FaultAt, RootOf, FirstFault, AllGenuine, FirstFailure, DecodeEntries, Hex.Decode, Holds, WellFormed, Ascii;
    DecodeEntriesExactly(f.entries, 0);
    var all := DecodeEntries(f.entries, 0);
    es := if all.Ok? then all.value else [];
    if Headed(f) && all.Ok? {
      VerifyExactly(c, Hex.Decode(f.pubKey).value, es);
    }
  }

  // ----- exactly which files load

  function LowerEntry(e: EntryFile): EntryFile {
    e.(binding := Hex.Lower(e.binding), prevHash := Hex.Lower(e.prevHash), sig := Hex.Lower(e.sig))
  }

  /** The same file with its hexadecimal fields in lower case. */
  function Lowered(f: LogFile): LogFile {
    f.(pubKey := Hex.Lower(f.pubKey), root := Hex.Lower(f.root),
       entries := seq(|f.entries|, i requires 0 <= i < |f.entries| => LowerEntry(f.entries[i])))
  }

  lemma EntryRespelled(e: EntryFile)
    ensures DecodeEntry(LowerEntry(e)) == DecodeEntry(e)
    ensures DecodeEntry(e).Some? ==> EncodeEntry(DecodeEntry(e).value) == LowerEntry(e)
  {
    hide Hex.Lower, Hex.Encode, Hex.Decode;
    Hex.Respelled(e.binding);
    Hex.Respelled(e.prevHash);
    Hex.Respelled(e.sig);
  }

  lemma {:induction false} EntriesRespelled(f: LogFile, i: nat)
    requires i <= |f.entries|
    ensures DecodeEntries(Lowered(f).entries, i) == DecodeEntries(f.entries, i)
    ensures DecodeEntries(f.entries, i).Ok? ==>
              forall k :: i <= k < |f.entries| ==>
                            EncodeEntry(DecodeEntries(f.entries, i).value[k - i]) == Lowered(f).entries[k]
    decreases |f.entries| - i
  {
    hide EncodeEntry, DecodeEntry, LowerEntry;
    if i == |f.entries| {
    } else {
      EntryRespelled(f.entries[i]);
      EntriesRespelled(f, i + 1);
    }
  }

  lemma CaseIgnored(c: Crypto, f: LogFile)
    ensures ReadFile(c, Lowered(f)) == ReadFile(c, f)
  {
    hide Hex.Lower, Hex.Decode, DecodeEntries, FirstFault, RootOf, Format, LowerEntry;
    Hex.Respelled(f.pubKey);
    Hex.Respelled(f.root);
    EntriesRespelled(f, 0);
  }

  /**
   Exactly which files load, and as what: up to the case of hexadecimal digits, the files Encode
   writes for storable logs, each as its own log. Every other edit of every field is refused.
   */
  lemma AcceptedExactly(c: Crypto, f: LogFile, l: Loaded)
    ensures ReadFile(c, f) == Ok(l) <==> Storable(c, l.pub, l.entries) && Lowered(f) == FileOf(c, l.pub, l.entries)
  {
    hide ReadFile, Storable, FileOf, Lowered;
    CaseIgnored(c, f);
    StoreRoundTrip(c, l.pub, l.entries);
    if ReadFile(c, f) == Ok(l) {
      AcceptedIsSound(c, f);
      AcceptedIsFile(c, f);
    }
  }

  lemma AcceptedIsFile(c: Crypto, f: LogFile)
    requires ReadFile(c, f).Ok?
    ensures var l := ReadFile(c, f).value; Lowered(f) == FileOf(c, l.pub, l.entries)
  {
    hide FirstFault, RootOf, Format, EncodeEntry, LowerEntry, DecodeEntries, Hex.Lower, Hex.Encode, Hex.Decode;
    Hex.Respelled(f.pubKey);
    Hex.Respelled(f.root);
    EntriesRespelled(f, 0);
    var l := ReadFile(c, f).value;
    assert Lowered(f).entries == FileOf(c, l.pub, l.entries).entries;
  }

  // ----- what the root fixes and what it does not

  /** Two accepted files with the same root hold the same records, or a collision. */
  lemma RootPinsRecords(c: Crypto, f: LogFile, g: LogFile)
    requires ReadFile(c, f).Ok? && ReadFile(c, g).Ok? && Hex32(f.root) == Hex32(g.root)
    ensures var a, b := ReadFile(c, f).value.entries, ReadFile(c, g).value.entries;
            Records(a) == Records(b)
            || Collides(c.hash, MV.TreeInputs(c.hash, Leaves(a)), MV.TreeInputs(c.hash, Leaves(b)))
  {
    AcceptedIsSound(c, f);
    AcceptedIsSound(c, g);
    RootDeterminesRecords(c, ReadFile(c, f).value.entries, ReadFile(c, g).value.entries);
  }

  /** The file with everything from record n on cut off, and its count adjusted to match. */
  function Truncated(f: LogFile, n: nat): LogFile
    requires n <= |f.entries|
  {
    f.(entries := f.entries[..n], count := n)
  }

  /** A truncated file passes every check but the last: it is refused for its root, or hashes collide. */
  lemma TruncatedWriting(c: Crypto, pub: Key, es: seq<Entry>, n: nat)
    requires Storable(c, pub, es) && n < |es|
    ensures ReadFile(c, Truncated(FileOf(c, pub, es), n)) == Err(RootMismatch)
            || Collides(c.hash, MV.TreeInputs(c.hash, Leaves(es[..n])), MV.TreeInputs(c.hash, Leaves(es)))
  {
    hide FaultAt, RootOf, EncodeEntry, Collides, FirstFault;
    TruncationOnlyRootNotices(c, pub, es, n);
    Hex.DecodeEncode(pub);
    Hex.DecodeEncode(RootOf(c, es));
    var cut := es[..n];
    assert Truncated(FileOf(c, pub, es), n).entries == FileOf(c, pub, cut).entries;
    EntriesRoundTrip(c, pub, cut, 0);
    assert cut[0..] == cut;
    FirstFaultIsFirst(c, pub, cut, 0);
  }

  /** The same of every file that loads, whoever wrote it. */
  lemma TruncationRejected(c: Crypto, f: LogFile, n: nat)
    requires ReadFile(c, f).Ok? && n < |f.entries|
    ensures var es := ReadFile(c, f).value.entries;
            && n < |es|
            && (ReadFile(c, Truncated(f, n)) == Err(RootMismatch)
                || Collides(c.hash, MV.TreeInputs(c.hash, Leaves(es[..n])), MV.TreeInputs(c.hash, Leaves(es))))
  {
    hide ReadFile, Storable, RootOf, Collides, LowerEntry, EncodeEntry;
    var l := ReadFile(c, f).value;
    AcceptedExactly(c, f, l);
    assert |Lowered(f).entries| == |l.entries|;
    TruncatedWriting(c, l.pub, l.entries, n);
    assert Lowered(Truncated(f, n)).entries == Truncated(Lowered(f), n).entries;
    CaseIgnored(c, Truncated(f, n));
  }

  /** The same records, signed again. */
  function Resigned(c: Crypto, priv: Key, es: seq<Entry>): (r: seq<Entry>)
    ensures |r| == |es|
  {
    seq(|es|, i requires 0 <= i < |es| => Entry(es[i].record, Sign(c, priv, es[i].record)))
  }

  /** A key pair of the sizes the file format takes. */
  ghost predicate FileKeys(c: Crypto, priv: Key, pub: Key) {
    KeyPair(c, priv, pub) && |pub| == 32 && forall msg :: |c.sign(priv, msg)| == 64
  }

  lemma ResignedSound(c: Crypto, p: Key, priv: Key, pub: Key, es: seq<Entry>)
    requires Sound(c, p, es) && KeyPair(c, priv, pub)
    ensures Sound(c, pub, Resigned(c, priv, es))
  {
    hide CanonicalBytes;
    forall i | 0 <= i < |es| ensures FaultAt(c, pub, Resigned(c, priv, es), i).None? {
      assert FaultAt(c, p, es, i).None?;
    }
  }

  /**
   The file vouches for the root and not for the signer: any other key pair can sign the same
   records again, and the result loads under that key with the same root and the same records.
   */
  lemma ResignedLoads(c: Crypto, f: LogFile, priv: Key, pub: Key)
    requires ReadFile(c, f).Ok? && FileKeys(c, priv, pub)
    ensures var es := ReadFile(c, f).value.entries;
            var es' := Resigned(c, priv, es);
            var g := FileOf(c, pub, es');
            && ReadFile(c, g) == Ok(Loaded(pub, es'))
            && Records(es') == Records(es)
            && Hex32(g.root) == Hex32(f.root)
  {
    hide ReadFile, RootOf, EncodeEntry, Sound, CanonicalBytes;
    var l := ReadFile(c, f).value;
    var es' := Resigned(c, priv, l.entries);
    AcceptedIsSound(c, f);
    ResignedSound(c, l.pub, priv, pub, l.entries);
    StoreRoundTrip(c, pub, es');
    Hex.DecodeEncode(RootOf(c, es'));
    assert RootOf(c, es') == RootOf(c, l.entries) by { SameRoot(c, es', l.entries); }
  }

  lemma SameRoot(c: Crypto, a: seq<Entry>, b: seq<Entry>)
    requires Records(a) == Records(b)
    ensures RootOf(c, a) == RootOf(c, b)
  {
    hide CanonicalBytes, MerkleRoot;
    assert |Records(a)| == |Records(b)|;
    assert forall i :: 0 <= i < |a| ==> a[i].record == Records(a)[i] == Records(b)[i] == b[i].record;
    assert Leaves(a) == Leaves(b);
  }

  /** Nor for the history: whatever decisions a key pair signs in sequence make a file that loads. */
  lemma AnyHistoryLoads(c: Crypto, priv: Key, pub: Key, reqs: seq<Request>)
    requires FileKeys(c, priv, pub) && |reqs| <= 100_000
    requires forall i :: 0 <= i < |reqs| ==> reqs[i].priv == priv
    ensures var es := Run(c, pub, [], reqs);
            && ReadFile(c, FileOf(c, pub, es)) == Ok(Loaded(pub, es))
            && |es| == |reqs|
            && (forall i :: 0 <= i < |reqs| ==> es[i].record.decision == reqs[i].decision
                                                && es[i].record.binding == reqs[i].binding
                                                && es[i].record.issuedAt == reqs[i].issuedAt)
  {
    hide ReadFile, Run, Sound;
    MatchingKeyRun(c, pub, [], reqs);
    assert Sound(c, pub, []) by { NothingUnsound(c, pub); }
    RunSound(c, pub, [], reqs, 0);
    RunSignatures(c, pub, reqs);
    StoreRoundTrip(c, pub, Run(c, pub, [], reqs));
  }

  lemma NothingUnsound(c: Crypto, pub: Key)
    ensures Sound(c, pub, [])
  {
  }

  lemma {:induction false} RunSignatures(c: Crypto, pub: Key, reqs: seq<Request>)
    requires forall i :: 0 <= i < |reqs| ==> forall msg :: |c.sign(reqs[i].priv, msg)| == 64
    ensures var es := Run(c, pub, [], reqs); forall i :: 0 <= i < |es| ==> |es[i].signature| == 64
    decreases |reqs|
  {
    hide CanonicalBytes, PrevOf;
    if reqs == [] {
    } else {
      var init, last := reqs[..|reqs| - 1], reqs[|reqs| - 1];
      RunSignatures(c, pub, init);
      assert |Sign(c, last.priv, NextRecord(c, Run(c, pub, [], init), last))| == 64;
    }
  }
}
