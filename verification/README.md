# SPT-Txn enforcement points: verification model

This project models, in Dafny, the trust-boundary core of the SPT-Txn enforcement
points and proves what that core promises.

- **The transparency log** (`translog`): the RFC 6962 Merkle tree (sections 2.1 and
  2.1.1), the signed hash chain, the log object and its mutex, and verify-on-load
  persistence.
- **The authorization state machine** (`gate`, `gateway`, `mcpgate`): the decision, the
  single-use spend log, and the two enforcement points as transition systems in which any
  number of requests interleave and any dependency may fail, each alone and both over one
  spend log and one chain.
- **The canonical encodings**: base58, little-endian amounts and timestamps, hexadecimal,
  the record bytes and the binding preimage.

`dafny verify dfyconfig.toml` checks the whole project.

## How to read it

- **Hashing.** SHA-256 is an arbitrary function `H` from byte strings to 32-byte digests;
  nothing is assumed about it. A binding result reads "the claim holds, or
  `Collides(H, A, B)`", where `A` and `B` are the finite sets of strings that the two
  computations themselves hash (`TreeInputs`, `PathInputs`, `ChainInputs`, `BindInputs`).
  So a failure of the claim always exhibits two different strings, one from each
  computation, with one hash. For a hash that is one-to-one on those strings the claim
  alone remains.
- **Signatures.** Signing and verifying are arbitrary functions. `KeyPair` (what the private
  key signs, the public key verifies) is assumed only where a lemma names it.
- **Interleavings.** Each concurrent part is a step function and a schedule. A schedule is
  any list of moves, so a lemma about every schedule is about every interleaving and every
  reachable state. `LogConcurrency` shows that the log's mutex makes each log operation
  atomic (`AtomicObject` says what that means), and `SpendConcurrency` shows the same of Spend; `Pep` and `McpGate` then treat Append
  and Spend as one step each.
- **Machine integers.** The Merkle recursions are written over unbounded sizes. A Go list of
  leaves or entries never reaches 2^62 elements, so this matters only for the size a caller
  claims to `VerifyInclusion`; `MachineVerify` is that check on 64-bit ints, and
  `CheckDivergesExactly` says exactly when the two part.
- **Two forms.** Code that changes things in place is modelled by classes and loops
  (`TransLog.Log`, `Gate.MemSpendLog`, `PepObject.PEP`, `McpGate.Enforcer`, the base58 and
  amount loops), each proved equal to a function of its inputs or old state. The theorems
  are about those functions.
- **The view of the tree.** `MerkleView` reads a leaf list as a tree and an audit path as a
  climb by turns; `TurnsLead`, `PathIsClimb` and `RootIsTreeRoot` tie it to the source's three
  recursions.

Where code and documentation differ, the model follows the code:

- `gate/gate.go` says the binding is emitted on every path, so that evidence is tied to the
  payment considered. It is the payment's binding if and only if the binding can be computed
  (`EvaluateExactly`); otherwise it is the zero digest, the same for every malformed payment
  (`MalformedPaymentsShareBinding`, and `TwoMalformedPayments` gives two).
- `README.md` says every decision, denials included, produces a receipt and a log entry. A
  decision leaves its receipt if and only if Emit succeeds, and its entry if and only if the
  signature verifies and, for an ALLOW, Emit had succeeded (`EvidencePerStep` for each step,
  `AnswerEvidenceExactly` for a whole answer, `EvidenceInEveryRun` in every interleaving). With a matching key and no Emit failure the
  promise holds in every interleaving (`NoFailureLeavesBoth`, `OneEntryPerToken`). Otherwise a
  denial can leave nothing (`DenialWithoutEvidence`), and an ALLOW answered 503 can leave
  nothing or only its receipt.
- `mcpgate/mcpgate.go` says a signed entry is emitted on every decision; the code discards the
  Append error (`EntryExactlyIfVerifies`, `MismatchedKeyLeavesNoEntry`). With the matching key
  the promise holds (`OneEntryPerCall`).
- `translog/store.go` says an edited file fails to load and a saved log is forged by no one.
  Exactly which files load is `AcceptedExactly`: the case of hexadecimal digits is free, and
  otherwise a file must be what Encode writes for a sound log under the key in the file. That
  key is not fixed by anything: any other key pair can sign the same records again
  (`ResignedLoads`) or any other history (`AnyHistoryLoads`). What a root known from elsewhere
  fixes is the records (`RootPinsRecords`).
- The transparency endpoint's `verified` field is not always true for a sound log: the exact
  condition is `VerifiedExactly`. The root endpoint can pair a root with another log's size:
  the exact condition is `RootMatchesSizeExactly`.
- `VerifyInclusion` without the true size does not identify the index: exactly what it accepts
  is `InclusionExact`.
- `largestPow2Below` does not terminate on a 64-bit int above 2^62 (`LoopExitsExactly`). An
  in-range `VerifyInclusion` reaches that loop if and only if the claimed size is above 2^62
  and the path is not empty (`CheckDivergesExactly`), even for a genuine path
  (`GenuineProofCanDiverge`).

## Model

| member | source | states |
|---|---|---|
| `Merkle.SplitExponent` | translog/merkle.go:35-42 | the split is a power of two k with k < n <= 2k |
| `Merkle.SplitUnique` | translog/merkle.go:35-42 | the split point is the only power of two k with k < n <= 2k |
| `Merkle.LargestPow2Below` | translog/merkle.go:36-42 | the doubling loop returns that split point for n >= 2 and 0 below |
| `MerkleTheorems.LoopExitsExactly` | translog/merkle.go:36-42 | on wrapping 64-bit ints the loop exits if and only if n <= 2^62 |
| `MerkleTheorems.ExitHalves` | translog/merkle.go:36-42 | whatever doubling the wrapping loop first exits after, its k halved is the split point |
| `MerkleTheorems.MachineAgrees` | translog/merkle.go:87-112 | up to a size of 2^62 rootFromPath on 64-bit ints is the unbounded recursion, failures included |
| `MerkleTheorems.CheckDivergesExactly` | translog/merkle.go:36-112 | the check on 64-bit ints never returns if and only if 0 <= m < size, size > 2^62 and the path is not empty; whenever it returns, its answer is VerifyInclusion |
| `MerkleTheorems.GenuineProofCanDiverge` | translog/merkle.go:36-112 | at size 2^62 + 1 a path that recomputes the root over unbounded integers sends the code into the endless loop |
| `MerkleTheorems.SmallTrees` | translog/merkle.go:45-55 | the tree hash on zero to three leaves, prefixes and order written out |
| `MerkleTheorems.RootBinding` | translog/merkle.go:16-55 | equal roots mean equal leaf lists of whatever lengths, the empty one included, or a collision |
| `MerkleTheorems.InclusionComplete` | translog/merkle.go:57-85 | a proof exists exactly for valid indices, and every generated proof verifies |
| `MerkleTheorems.AcceptedIsLocated` | translog/merkle.go:79-112 | for any claimed index and size, an accepted leaf is in the list at the index the claimed turns lead to and its path is that index's audit path, or a collision |
| `MerkleTheorems.InclusionSound` | translog/merkle.go:79-112 | with the true size an accepted leaf is leaves[m] and its path is exactly the audit path of m, or a collision |
| `MerkleTheorems.InclusionExact` | translog/merkle.go:79-112 | for every 64-bit index and size: a genuine leaf and path of some index with the claimed turns, at a size of at most 2^62, is accepted; anything else accepted exhibits a collision |
| `MerkleTheorems.LocatedIsAccepted` | translog/merkle.go:66-112 | the genuine proof of an index is accepted, on 64-bit ints, under every index and size up to 2^62 with the same turns |
| `MerkleTheorems.WrongSizeAccepted` | translog/merkle.go:79-112 | the true size is needed: the proof of leaf 2 of 3 verifies as leaf 1 of 2 |
| `MerkleTheorems.AcceptedLength` | translog/merkle.go:87-112 | a root is recomputed if and only if the path has exactly the leaf's depth as its length |
| `MerkleTheorems.PathLength` | translog/merkle.go:66-75 | a generated path has the leaf's depth as its length |
| `MerkleTheorems.DepthBound` | translog/merkle.go:66-75 | n <= 2^j bounds every depth by j, so depth is at most ceil(log2 n) |
| `MerkleTheorems.FirstLeafDepth` | translog/merkle.go:66-75 | the first leaf attains that bound |
| `MerkleTheorems.FullTreeDepth` | translog/merkle.go:66-75 | in a tree of 2^j leaves every depth is j |
| `MerkleTheorems.BlockStable` | translog/merkle.go:36-75 | once an aligned block of 2^j leaves is full, the first j siblings of each member are its path inside the block alone |
| `MerkleTheorems.SiblingsSurviveGrowth` | translog/merkle.go:66-75 | no later append changes those siblings |
| `MerkleTheorems.MultiplesAligned` | translog/merkle.go:66-75 | every multiple of 2^j is an aligned block start |
| `MerkleTheorems.GrowthChangesPath` | translog/merkle.go:66-75 | any growth of the list changes the whole audit path of every leaf, or a collision |
| `MerkleView.TreeBinding` | translog/merkle.go:16-55 | equal tree roots mean equal trees, or a collision; uses the leaf and node prefixes |
| `MerkleView.ClimbBinding` | translog/merkle.go:87-112 | a climb reaching a tree's root followed the real siblings of a real leaf, or a collision |
| `MerkleView.PathIsClimb` | translog/merkle.go:87-112 | rootFromPath is the climb by turns when the length fits, and fails otherwise |
| `MerkleView.TurnsLead` | translog/merkle.go:66-75 | the turns of m lead to leaf m past exactly its audit path |
| `MerkleView.RootIsTreeRoot` | translog/merkle.go:45-55 | MerkleRoot is the root of the tree behind the list |
| `MerkleView.TurnsInjective` | translog/merkle.go:66-75 | in one tree no two indices have the same turns |
| `Record.BuildCanonicalBytes` | translog/record.go:71-85 | the append-and-scratch-array loop yields the canonical encoding |
| `Record.PutUint64` | translog/record.go:76-83 | the scratch array holds the little-endian bytes of the number |
| `Record.CanonicalLayout` | translog/record.go:71-85 | the offset and value of every field of the 102 bytes, the bytes of the tag included |
| `Record.CanonicalInjective` | translog/record.go:71-85 | equal encodings mean equal records, negative timestamps included |
| `TransLog.FirstFaultIsFirst` | translog/log.go:108-125 | the fault reported is the earliest, and none is reported exactly for a sound log |
| `TransLog.VerifyExactly` | translog/log.go:108-125 | Verify finds nothing if and only if every record i carries Seq i, the hash of the canonical bytes of record i - 1 (32 zero bytes at 0) and a signature the key accepts on its canonical bytes; otherwise it reports the failing one of these, in that order, of the first record that fails |
| `TransLog.SoundMeans` | translog/log.go:106-107 | a log is sound if and only if every record is so numbered, linked and signed |
| `TransLog.AppendKeepsSound` | translog/log.go:41-62 | Append, succeeding or failing, keeps a sound log sound |
| `TransLog.Log.constructor` | translog/log.go:33-35 | a new log is empty and bound to its key |
| `TransLog.Log.AppendEntry` | translog/log.go:41-62 | the new log is the old one plus the signed next entry, or unchanged when self-verification fails; soundness is kept |
| `TransLog.Log.CanonicalLeaves` | translog/log.go:98-104 | the loop collects the canonical bytes of every record in order |
| `TransLog.Log.Len` | translog/log.go:65-69 | the number of records |
| `TransLog.Log.At` | translog/log.go:72-79 | the record at the index, exactly for indices in range |
| `TransLog.Log.Root` | translog/log.go:82-86 | the Merkle root over all records |
| `TransLog.Log.Proof` | translog/log.go:89-93 | the inclusion proof over all records |
| `TransLog.Log.Verify` | translog/log.go:108-125 | returns nil if and only if every record is numbered, linked and signed, and otherwise what is wrong with the first that is not |
| `LogTheorems.RunSound` | translog/log.go:41-62 | every run of successful and failed Appends stays sound, and earlier logs are prefixes of later ones |
| `LogTheorems.MatchingKeyRun` | translog/log.go:41-62 | with matching keys every Append succeeds: one entry per request, decisions, bindings and times in order |
| `LogTheorems.OldProofsStillVerify` | translog/log.go:81-93 | a proof taken at size n verifies against the root recomputed from the first n records of any later log |
| `LogTheorems.HeadDeterminesHistory` | translog/log.go:108-125 | two sound logs with equal last record hashes hold the same records throughout, lengths included, or a collision |
| `LogTheorems.SoundPrefix` | translog/log.go:108-125 | every prefix of a sound log is sound |
| `LogTheorems.RootDeterminesRecords` | translog/log.go:82-86 | equal log roots mean the same records in the same order, or a collision |
| `LogTheorems.TruncationOnlyRootNotices` | translog/log.go:108-125 | a strict prefix still passes Verify, and its root differs, or a collision |
| `LogConcurrency.Perform` | translog/log.go:41-125 | each operation of the atomic object is the effect and answer of the Log's own method |
| `LogConcurrency.InsideRefines` | translog/log.go:41-125 | each step of a method body keeps its reads current or commits the atomic operation |
| `LogConcurrency.CheckingRefines` | translog/log.go:108-125 | Verify's loop, one entry a step with its running hash, ends in the first fault of the log it holds |
| `LogConcurrency.StepRefines` | translog/log.go:41-125 | each step of each thread is one enabled atomic event or none |
| `LogConcurrency.EveryInterleavingRefines` | translog/log.go:41-125 | every interleaving of Append, Root, Proof, Encode, Len, At and Verify split into steps is the atomic object run over a legal sequence of call, commit and return events |
| `LogConcurrency.SpecRunChains` | translog/log.go:15-30 | over atomic runs the chain stays sound and the log gains exactly the acknowledged entries in commit order |
| `LogConcurrency.NoForkNoLostWrite` | translog/log.go:15-30 | in every interleaving from rest the chain is sound and the log is what it was plus every acknowledged append |
| `LogConcurrency.UnguardedLosesWrite` | translog/log.go:19-25 | without the mutex two appends can both succeed with Seq 0 and leave one entry |
| `LogConcurrency.UnguardedTearsSnapshot` | translog/store.go:85-112 | without the mutex Encode can pair the root of no records with a body of one |
| `LogProgress.HolderReleases` | translog/log.go:41-125 | however the others interleave, the mutex holder returns and the mutex is free before it has made as many moves as its remaining work |
| `LogProgress.MutexAlwaysReleased` | translog/log.go:41-125 | in every reachable state, over a log of n entries, 2n + 6 moves of the mutex holder are enough for that |
| `LogProgress.EveryStateDrains` | translog/log.go:19-25 | no deadlock: from every reachable state some continuation ends every call and frees the mutex |
| `Hex.DecodeEncode` | translog/store.go:94-111 | hexadecimal text decodes to the bytes it was made from |
| `Hex.Respelled` | translog/store.go:254-265 | the case of digits never changes what is read, and what is read is written back as the same text in lower case |
| `Hex.EncodeDecode` | translog/store.go:254-265 | re-encoding gives the same text if and only if it had no upper-case digit |
| `Hex.HexValueExactly` | translog/store.go:254-265 | a character is the digit v if and only if it is v written in hexadecimal in either case |
| `Hex.DecodeExactly` | translog/store.go:254-265 | text decodes to given bytes if and only if byte k is the digits at 2k and 2k + 1, high one first |
| `Store.Encode` | translog/store.go:91-112 | the loop builds the file of the log |
| `Store.ReadLog` | translog/store.go:160-242 | accepts exactly what the checks in source order accept, with their first error otherwise, and returns a fresh log with the file's key and entries |
| `Store.StoreRoundTrip` | translog/store.go:91-242 | a log survives Encode then ReadLog unchanged if and only if it is sound with a 32-byte key, 64-byte signatures and at most 100,000 entries |
| `Store.AcceptedIsSound` | translog/store.go:160-242 | every accepted file holds what its fields say, each record numbered, linked and signed, with the file's key, root and count and at most 100,000 entries |
| `Store.RefusedExactly` | translog/store.go:160-242 | why a file is refused: the first failing header field, else the first malformed entry, else the first record not numbered, linked and signed, else the root, each with its own error |
| `Store.AcceptedExactly` | translog/store.go:160-242 | a file loads as a given log if and only if that log is storable and the file, with its hexadecimal in lower case, is what Encode writes for it |
| `Store.RootPinsRecords` | translog/store.go:231-241 | two accepted files with equal roots hold the same records, or a collision |
| `Store.ResignedLoads` | translog/store.go:12-18 | the records of any file that loads, signed again by any other key pair, load under that key with the same root |
| `Store.AnyHistoryLoads` | translog/store.go:12-18 | whatever decisions a key pair signs in sequence make a file that loads with exactly those decisions, bindings and times |
| `Store.TruncationRejected` | translog/store.go:231-241 | any file that loads, truncated and with its count adjusted, is refused for its root, or a collision |
| `Radix.RecodeRoundTrip` | gate/base58.go:29-89 | changing base and back is the identity on every digit string, leading zeros included |
| `Radix.RecodeExactly` | gate/base58.go:29-89 | changing base gives exactly the numeral with the same value and as many leading zeros |
| `Radix.ValueConcat` | gate/base58.go:32-40 | place value: the value of a numeral is that of its front times the base to the number of digits behind it, plus that of those digits |
| `Radix.ValueOne` | gate/base58.go:32-40 | one digit stands for itself |
| `Radix.DigitsOfValue` | gate/base58.go:69-89 | a numeral without leading zeros is the shortest numeral of its value |
| `Radix.ValueOfDigits` | gate/base58.go:29-49 | the shortest numeral of n has value n |
| `Base58.BuildIndex` | gate/base58.go:14-23 | the table holds each character's digit, and -1 for every other byte |
| `Base58.CharDigitInverse` | gate/base58.go:12-23 | the table inverts the alphabet |
| `Base58.AlphabetExactly` | gate/base58.go:12 | the alphabet is the letters and digits without 0, I, O and l, its digits in order of character code |
| `Base58.DecodeBase58` | gate/base58.go:29-49 | the accumulator loop computes the decoding function, failures included |
| `Base58.EncodeBase58` | gate/base58.go:69-89 | the digit loop and the in-place reversal compute the encoding function |
| `Base58.ReverseInPlace` | gate/base58.go:85-87 | the swap loop reverses the array |
| `Base58.DecodeEncode` | gate/base58.go:66-89 | every byte string survives encoding and decoding |
| `Base58.EncodeDecode` | gate/base58.go:27-49 | exactly the strings over the alphabet decode, and each survives decoding and encoding |
| `Base58.DecodeExactly` | gate/base58.go:27-49 | a string decodes to given bytes if and only if it is over the alphabet and they stand for the same number with as many leading zero bytes as the string has leading zero digits |
| `Base58.EncodeExactly` | gate/base58.go:66-89 | the encoding of given bytes is exactly the string over the alphabet for the same number with as many leading zero digits |
| `Base58.LeadingOnesAreZeros` | gate/base58.go:42-45 | leading zero digits of a string are its leading 1 characters |
| `Base58.PubkeyExactly` | gate/base58.go:53-64 | the key returned is exactly the decoding, accepted if and only if it has 32 bytes; a character outside the alphabet has its own error |
| `Base58.PubkeySpellingUnique` | gate/base58.go:53-64 | a 32-byte key has exactly one accepted spelling |
| `Decimal.ReadsDecimal` | gate/binding.go:84-87 | what both parsers read: a digit character is its digit, each further one makes ten times the number plus its digit, a sign is read by the big-integer parser alone, and nothing else is a number |
| `Decimal.WrittenIsRead` | mcpgate/mcpgate.go:107-110 | every number is read from its decimal writing, by the uint64 parser exactly below 2^64, and with a minus sign as its negative |
| `Decimal.ParsersAgree` | mcpgate/mcpgate.go:107-110 | whatever the uint64 parser accepts, the big-integer parser reads as the same number |
| `Decimal.ParsersDiffer` | gate/binding.go:84-87 | the big-integer parser accepts more exactly on signed numbers and on 2^64 and up |
| `Binding.FillAmount16LE` | gate/binding.go:123-136 | the reversing loop yields the 16 little-endian bytes, or the negative and overflow errors exactly outside 0..2^128-1 |
| `Binding.LittleEndianReverses` | gate/binding.go:131-134 | minimal big-endian bytes reversed and zero-filled are the fixed-width little-endian form |
| `Binding.PreimageLayout` | gate/binding.go:95-118 | the offset and value of every field of the 171-byte preimage, the bytes of the tag included |
| `Binding.PreimageInjective` | gate/binding.go:95-118 | equal preimages mean equal fields, resource hash and nonce |
| `Binding.ResolveExactly` | gate/binding.go:66-89 | when a payment resolves and to what: each tag from its own name, each key from its own string, the number written, the resource; and which failing field gives which error |
| `Binding.ResolveIsPayment` | gate/binding.go:66-89 | two requirements resolve alike if and only if tags, key spellings, numeric amount and resource agree |
| `Binding.BindingIdentifiesPayment` | gate/binding.go:66-136 | two bindings are equal if and only if payment and nonce are the same, up to a collision among the four strings hashed |
| `Binding.InjectiveTagsPinNames` | gate/binding.go:43-46 | with one-to-one tag maps the scheme and network names agree too |
| `Gate.EvaluateExactly` | gate/gate.go:86-121 | the exact cause of each class, freshness as now at most the expiry, the binding emitted, and that a nonce is spent exactly by an ALLOW |
| `Gate.FreshUntilExpiry` | gate/gate.go:104-106 | what is allowed at a time is allowed alike at every earlier time, and at no time after the expiry |
| `Gate.MalformedPaymentsShareBinding` | gate/gate.go:78-103 | any two payments whose binding cannot be computed, with any tokens, policies, stores and times, get the same decision with the zero binding, and spend nothing |
| `Gate.TwoMalformedPayments` | gate/gate.go:99-103 | beside every payment that binds, two different ones with its admitted scheme, network and keys that do not |
| `Gate.EvaluateWith` | gate/gate.go:99-121 | the straight-line code over a spend log whose store may be down computes the decision and the new spend log |
| `Gate.MemSpendLog.Spend` | gate/mem_spendlog.go:22-30 | one call succeeds exactly when the nonce was unseen, and the nonce is seen afterwards; concurrent callers are the next four rows |
| `SpendConcurrency.StepRefines` | gate/mem_spendlog.go:22-30 | each step of Spend (lock, lookup, insert, unlock) is one enabled event of the atomic spend log or none |
| `SpendConcurrency.EveryInterleavingRefines` | gate/mem_spendlog.go:22-30 | every interleaving of any number of callers is the atomic spend log run over a legal sequence of call, commit and return events |
| `SpendConcurrency.EachNonceWonOnce` | gate/gate.go:57-62 | in every interleaving from rest the successful calls are for different, unseen nonces, and those are exactly the nonces gained |
| `SpendConcurrency.UnguardedSpendsTwice` | gate/mem_spendlog.go:22-30 | without the mutex two calls can both succeed on one nonce |
| `Gate.SpendThrough` | gate/gate.go:57-62 | the spend log behind a store that may be unavailable: an outage is reported and changes nothing |
| `Pep.ReceiptFor` | gateway/pep.go:136-152 | PERMIT/ok exactly for ALLOW, unavailable exactly for an outage, digest of the same binding |
| `Pep.MapDecision` | gateway/pep.go:252-263 | the chain value is 0 exactly for ALLOW, 1 for a violation and 2 for an outage |
| `Pep.AdvanceProgresses` | gateway/pep.go:180-230 | every step of an unanswered request brings it closer to an answer, and answers are final |
| `PepRuns.AdvanceRight` | gateway/pep.go:180-244 | one step spends a nonce exactly with its ALLOW, fills a log or receipt position exactly for its own request, and keeps the chain sound |
| `PepRuns.EveryRunKeepsInv` | gateway/pep.go:180-244 | the invariant below holds in every state of every interleaving, and evidence is never removed |
| `PepRuns.ServedHasEvidence` | gateway/pep.go:168-174 | a request answered 200 had its PERMIT receipt recorded and only then an ALLOW entry appended, both with the request's own binding |
| `PepRuns.EvidenceIsDecisions` | gateway/pep.go:161-244 | each appended entry and each recorded receipt belongs to exactly one request and carries its decision and binding |
| `PepRuns.AllowEntriesAreServices` | gateway/pep.go:168-174 | ALLOW entries are exactly those of requests served or between Append and serve, and as many |
| `PepRuns.PermitsExceedEntriesExactly` | gateway/pep.go:201-206 | PERMIT receipts outnumber ALLOW entries by exactly the requests whose append failed or is still to come |
| `PepRuns.NoncesConserved` | gateway/pep.go:197-219 | spent nonces split disjointly into those spent before the run and those of requests served, refused with 503 after ALLOW, and in flight, one each; so no denial spends |
| `PepRuns.SingleUse` | gate/gate.go:94-98 | at most one request is ever served on a nonce, and none on a nonce spent before |
| `PepRuns.OneServicePerBinding` | gate/binding.go:62-66 | two served requests with equal bindings exhibit a collision among the strings bound |
| `PepRuns.UnparseableChangesNothing` | gateway/pep.go:184-195 | in every reachable state a request without a parseable token changes nothing shared and is answered 401 |
| `PepRuns.StatusMeans` | gateway/pep.go:181-229 | in every interleaving an answer is 401 exactly without a token, 402 exactly for a violation, 200 exactly for an ALLOW with its entry, 503 exactly for an outage or an ALLOW without its entry; its nonce was spent exactly by an ALLOW |
| `PepRuns.NineStepsAnswer` | gateway/pep.go:180-230 | nine own steps, interleaved in any way, bring every request to its answer |
| `PepEvidence.EvidencePerStep` | gateway/pep.go:207-244 | a receipt appears exactly at an emit step that succeeds, an entry exactly at an append step whose signature verifies, an ALLOW appends only with its receipt recorded, and no other step changes a request's evidence |
| `PepEvidence.EntryPerStep` | gateway/pep.go:207-244 | the entry a step appends comes last in the log and carries the decision, its binding and the time of that step |
| `PepEvidence.AnswerEvidenceExactly` | gateway/pep.go:197-244 | an uninterrupted decision leaves its receipt if and only if Emit succeeds, and its entry if and only if the signature verifies and, for an ALLOW, Emit succeeded |
| `PepEvidence.EvidenceInEveryRun` | gateway/pep.go:197-244 | in every interleaving an answered decision made exactly one emit step and has its receipt if and only if that step succeeded; it made one later append step unless it was an ALLOW without receipt, and has its entry if and only if the signature verified at that step, with the decision, its binding and the time of that step |
| `PepEvidence.NoFailureLeavesBoth` | gateway/pep.go:197-244 | with a matching key and no Emit failure, in every interleaving no ALLOW is refused, every answered decision has receipt and entry, and the log gained one entry for each and for each about to be answered |
| `PepEvidence.OneEntryPerToken` | gateway/pep.go:197-244 | once all are answered, the log has gained one entry per request that presented a token |
| `PepEvidence.DenialWithoutEvidence` | gateway/pep.go:237-244 | a run with a good log key that answers a denial with neither receipt nor entry |
| `PepEvidence.DenialLosesBoth` | gateway/pep.go:221-244 | every malformed payment is so denied when Emit fails and the signature does not verify |
| `PepDecisions.DecisionInEveryRun` | gateway/pep.go:180-230 | in every interleaving a request asks the time, then the policy, then the spend log at most once each and exactly when the decision is still open, and its decision is the gate's on the answers its own steps got |
| `PepDecisions.ServedWasEarned` | gate/gate.go:86-98 | in every interleaving a served request had an unexpired token at its own freshness step, a permitting policy at a later own step, and an unspent nonce with the store up at a still later one |
| `PepObject.PEP.RecordDeny` | gateway/pep.go:237-244 | both artifacts best effort, the denial unchanged by failures, as the steps of the request |
| `PepObject.PEP.ServeAllowed` | gateway/pep.go:200-219 | receipt, then entry, then service, with either failure refused, as the steps of the request |
| `PepObject.PEP.Wrap` | gateway/pep.go:180-230 | the handler, over a spend store that may be down, computes exactly the request's steps run to the end, and always answers |
| `PepObject.EvaluateIsSteps` | gate/gate.go:99-121 | the request's steps from parsed token to decision are the gate's decision |
| `PepObject.WrapIsASchedule` | gateway/pep.go:180-230 | an uninterrupted Wrap is one of the interleavings |
| `McpGate.RawDecision` | mcpgate/mcpgate.go:77 | the raw enumeration conversion agrees with the HTTP side's explicit map |
| `McpGate.PermittedExactly` | mcpgate/mcpgate.go:96-115 | the policy permits exactly the approved asset, recipient and resource for a readable amount up to and including the limit |
| `McpGate.CheckedAmountIsBound` | mcpgate/mcpgate.go:98-115 | a permitted payment binds the approved keys and resource and the very amount checked, within the limit and without loss |
| `McpGate.AllowBindsApproved` | mcpgate/mcpgate.go:66-115 | under an ExactPayment policy a call is allowed if and only if its own asset, recipient and resource are the approved ones, its amount is within the limit, its strings bind, it has not expired, its nonce is unspent and the store is up; the decision is then the binding of that payment, keys decoded from the call's strings, to the call's nonce |
| `McpGate.EveryAllowBindsApproved` | mcpgate/mcpgate.go:66-115 | in every interleaving of fresh calls every ALLOW binds the approved payment of its own call, decided at a move of that call at which it had not expired, the store was up and its nonce was unspent |
| `McpGate.DecisionInEveryRun` | mcpgate/mcpgate.go:66-84 | in every interleaving of fresh calls a call's first own move decides it as the gate does on what that move finds, and its second returns it with the time of that move |
| `McpGate.CallsSpendOnce` | mcpgate/mcpgate.go:66-84 | in every interleaving of fresh calls the spent nonces are those spent before and those of the allowed calls, disjointly, and no two allowed calls share one |
| `McpGate.EntryExactlyIfVerifies` | mcpgate/mcpgate.go:76-83 | the log gains the call's entry if and only if its signature verifies, with the decision, its binding and the time given, and the decision does not depend on it |
| `McpGate.Enforcer.AuthorizeCall` | mcpgate/mcpgate.go:66-84 | decision, spend log and transparency log after one call, store outages included |
| `McpGate.StepAgrees` | mcpgate/mcpgate.go:66-84 | each step keeps log entries and returned decisions in agreement |
| `McpGate.EvidenceAgreesInEveryRun` | mcpgate/mcpgate.go:66-84 | with the matching key, in every interleaving of calls the log's decisions, bindings and times are those of the returned calls in append order, one entry per returned call |
| `McpGate.OneEntryPerCall` | mcpgate/mcpgate.go:66-84 | with the matching key, however fresh calls interleave, once all have returned the log has grown by exactly the number of calls |
| `McpGate.MismatchedKeyLeavesNoEntry` | mcpgate/mcpgate.go:77 | if the log's key rejects what RKey signs, whatever else it accepts, a call is allowed and leaves no entry |
| `SharedCore.OneUseAcrossTransports` | mcpgate/mcpgate.go:1-10 | when HTTP requests and tool calls interleave over one spend log, the spent nonces are those spent before, of allowed requests and of allowed calls, disjointly and one each |
| `SharedCore.OneChain` | mcpgate/mcpgate.go:1-10 | over one transparency log the chain stays sound and only grows, whichever side appends |
| `SharedCore.ServedAmongCalls` | gateway/pep.go:168-174 | a served request has its receipt and its ALLOW entry in the shared chain, with its own binding |
| `Transparency.Handle` | gateway/transparency.go:47-77 | over an unchanging log the handler's reads give the modelled response |
| `Transparency.QuietReadVerifies` | gateway/transparency.go:53-75 | with no append between the reads, every valid seq at every size is answered with that seq, size and record and verified true, and every other seq is not found |
| `Transparency.VerifiedExactly` | gateway/transparency.go:53-75 | whatever is appended between the reads, the answer names the seq asked and the size read, and verified is true when the log did not grow between Proof and Root and the entry's turns are the same at Root's and the last Len's size; any other verified answer exhibits a collision |
| `Transparency.GrowthFromOneToTwo` | gateway/transparency.go:58-75 | growth from one entry to two between Proof and Root always yields verified false |
| `Transparency.HandleRoot` | gateway/transparency.go:42-45 | over an unchanging log the root endpoint's reads give the modelled response |
| `Transparency.RootMatchesSizeExactly` | gateway/transparency.go:42-45 | the size returned is what Len read, and the root returned is that of the size returned if nothing was appended between Root and Len, and only then, or a collision |

## Left out

- SHA-256 and Ed25519 internals: foreign primitives; nothing about unforgeability is assumed or claimed, and the panics of Go's Ed25519 on keys of the wrong size are not modelled.
- JSON, base64 and HTTP carriage: a request is a token or none with its requirements, a file is a `logFile` value, and the 64 MiB read cap is not modelled.
- File-system work in Save and LoadLog: temporary file, mode, sync and rename are operating-system calls.
- NewPEP validation, Conformant, Logf and evidence.None: single-branch checks; the emitter is a step that records the receipt or fails.
- Reason strings, error texts, token fingerprints and log-entry tags: no property depends on them.
- The wrapped handler's own answer: status 200 stands for whatever it returns.
- Clocks: each step is handed a time; a token's expiry is a number or unset.
- Durability of MemSpendLog across restarts: the source labels it in-memory only.
- HeadDeterminesHistory: takes logs shorter than 2^63, the bound of a Go slice length, because Seq is stored modulo 2^64.
- VerifiedExactly: takes a log shorter than 2^63 for the same reason.
