# Babylon crypto-ops: randomness codec, finality votes and confirmation checks

This project models the deterministic logic of the two `crypto-ops` tools of the
Babylon rollup-integration deployments, and the polling and selection rules of the
bitcoind staking demo, and proves properties of that model in Dafny.

A finality provider commits to a list of one-time public randomness values (a
Merkle commitment over the list). It later votes on a block at height `h` by
signing `BigEndian8(h) ++ blockHash` with the secret randomness at index `h - 1`.
The vote discloses the public randomness and its inclusion proof at that index.

- `basics.dfy` (module `Basics`): Go's `uint64`/`int64` and the two casts between
  them, which are inverse bijections modulo 2^64; `Option`, `Result` and `Outcome`
  (an error-only result).
- `hex.dfy` (`Hex`): Base16 as Go's `encoding/hex` implements it (section 8 of
  RFC 4648). Encoding writes lowercase digits. Decoding accepts either case and
  fails on an odd length or a non-hex character.
- `big_endian.dfy` (`BigEndian`): the eight-byte big-endian height of
  `sdk.Uint64ToBigEndian`, with its inverse.
- `rand_list_codec.dfy` (`RandListCodec`): `ConvertToSerializable` and
  `ConvertFromSerializable`, which move a `RandListInfo` between processes as hex
  strings and `uint64` proof fields. The code is identical in both tools, so it is
  modelled once.
- `finality_signature.dfy` (`FinalitySignature`): the signed message, the
  height-to-index rule of `generateFinalitySignature` and `submitFinalitySignature`,
  and the contract message of a vote. The code as written and the corrected rule
  are both modelled.
- `confirmation.dfy` (`Confirmation`): `verifyPublicRandomnessCommitment`,
  `verifyFinalitySignature`, the two retry loops of the rollup tool, and the
  bitcoind tool's single confirmation of a vote.
- `staking_demo.dfy` (`StakingDemo`): `waitForDelegationActivation` and the guards
  of `stakeBTC` and `deployFinalityContract`.

Foreign code appears as parameters:
- The signature library's scalar and point types are the type parameters `S` and `P`.
- Its byte conversions and the `merkle.ProofFromProto` check are the function
  fields of a `Lib` value.
- `eots.Sign` is the function parameter `sign`.
- Every answer from the chain or from `stakercli` is a parameter holding the
  already-parsed response. A loop's k-th attempt sees `responses(k)` or `polls(k)`.
- Sleeps are counted, not performed.

Nothing in the decoder compares the lengths of the three lists:
`RandListCodec.DecodeAcceptsUnequalLengths` shows a batch of unequal lengths
decoding. The retry loops sleep only between attempts, never after the last one.

## Model

| member | source | states |
|---|---|---|
| Basics.Uint64FromInt64 | deployments/rollup-btc-staking-demo/crypto-ops-tool/cmd/crypto-ops/main.go:112-113 | `uint64(x)` of an `int64` is the value congruent to `x` modulo 2^64 |
| Basics.Int64FromUint64 | deployments/rollup-btc-staking-demo/crypto-ops-tool/cmd/crypto-ops/main.go:164-165 | `int64(u)` of a `uint64` is the value congruent to `u` modulo 2^64 |
| Basics.CastsAreInverse | deployments/btc-staking-integration-bitcoind/btc-staking-demo/cmd/crypto-ops/main.go:163-164 | the two casts invert each other. A `uint64` keeps its value through `int64(u)` exactly when it is below 2^63. An `int64` keeps its value through `uint64(x)` exactly when it is non-negative |
| Hex.DigitValue | deployments/rollup-btc-staking-demo/crypto-ops-tool/cmd/crypto-ops/main.go:138 | a character has a value, between 0 and 15, exactly when it is a hex digit of either case. An uppercase A-F has the value of its lowercase letter, and every digit's value is the one `DigitChar` writes for it |
| Hex.Encode | deployments/rollup-btc-staking-demo/crypto-ops-tool/cmd/crypto-ops/main.go:101 | `hex.EncodeToString` writes two lowercase digits per byte |
| Hex.Decode | deployments/rollup-btc-staking-demo/crypto-ops-tool/cmd/crypto-ops/main.go:131 | `hex.DecodeString` yields one byte per two characters |
| Hex.DecodeEncode | deployments/rollup-btc-staking-demo/crypto-ops-tool/cmd/crypto-ops/main.go:89 | decoding the hex of any byte string gives that byte string back |
| Hex.DecodeIgnoresCase | deployments/rollup-btc-staking-demo/crypto-ops-tool/cmd/crypto-ops/main.go:131 | a string decodes exactly as its lowercase form does, so uppercase or mixed-case hex of a byte string decodes to that byte string |
| Hex.DecodeAccepts | deployments/rollup-btc-staking-demo/crypto-ops-tool/cmd/crypto-ops/main.go:138-141 | decoding fails exactly on an odd length or a character outside 0-9, a-f, A-F |
| BigEndian.FromToBigEndian | deployments/rollup-btc-staking-demo/crypto-ops-tool/cmd/crypto-ops/main.go:542 | the n-byte big-endian encoding of x reads back as x modulo 256^n |
| BigEndian.Uint64ToBigEndian | deployments/rollup-btc-staking-demo/crypto-ops-tool/cmd/crypto-ops/main.go:542 | `sdk.Uint64ToBigEndian` gives eight bytes that read back as the height |
| RandListCodec.ConvertToSerializable | deployments/rollup-btc-staking-demo/crypto-ops-tool/cmd/crypto-ops/main.go:85-119 | each serialized list has the length of its source list. Element i is the hex of secret i, the hex of public randomness i, or the fields of proof i with `Total`/`Index` cast to `uint64`. The commitment is hex-encoded (the bitcoind tool has the same code at cmd/crypto-ops/main.go:84-118) |
| RandListCodec.Collect | deployments/rollup-btc-staking-demo/crypto-ops-tool/cmd/crypto-ops/main.go:137-147 | a decoding loop succeeds exactly when every item decodes, and then returns the items in order. Otherwise it reports the first failing index and its fault |
| RandListCodec.DecodeSecretList | deployments/rollup-btc-staking-demo/crypto-ops-tool/cmd/crypto-ops/main.go:137-147 | the secret loop returns exactly what `Collect` specifies for the per-entry hex decode and `SetByteSlice` overflow check: every scalar in order, or the first failing index with its fault |
| RandListCodec.DecodePubRandList | deployments/rollup-btc-staking-demo/crypto-ops-tool/cmd/crypto-ops/main.go:150-158 | the public randomness loop returns exactly what `Collect` specifies for the per-entry hex decode and `Unmarshal`: every value in order, or the first failing index with its fault |
| RandListCodec.DecodeProofList | deployments/rollup-btc-staking-demo/crypto-ops-tool/cmd/crypto-ops/main.go:161-175 | the proof loop returns exactly what `Collect` specifies for the per-entry `int64` casts and `merkle.ProofFromProto`: every proof in order, or the first failing index |
| RandListCodec.ConvertFromSerializable | deployments/rollup-btc-staking-demo/crypto-ops-tool/cmd/crypto-ops/main.go:122-178 | the commitment decode followed by the three loops, in that order, returns exactly what `Decode` specifies: the decoded list, or the first error, with no partial result (the bitcoind tool has the same code at cmd/crypto-ops/main.go:121-177) |
| RandListCodec.DecodeInvertsEncode | deployments/rollup-btc-staking-demo/crypto-ops-tool/cmd/crypto-ops/main.go:122-177 | decoding the encoding of a list gives back every secret, public randomness value, commitment byte and proof field. This holds when the library reads back what it writes and the proofs are ones `merkle.ProofFromProto` accepts |
| RandListCodec.DecodeSucceeds | deployments/btc-staking-integration-bitcoind/btc-staking-demo/cmd/crypto-ops/main.go:122-126 | decoding succeeds exactly when the commitment and every item decode. Each decoded list then has the length of its own serialized list, element by element, and nothing ties the three lengths together |
| RandListCodec.DecodeFailsAtFirstBadItem | deployments/btc-staking-integration-bitcoind/btc-staking-demo/cmd/crypto-ops/main.go:130-174 | for each error, the error is returned exactly when it names the first failure, in the order commitment, secrets, public randomness, proofs (the rollup tool has the same code at cmd/crypto-ops/main.go:131-175) |
| RandListCodec.DecodeAcceptsUnequalLengths | deployments/rollup-btc-staking-demo/crypto-ops-tool/cmd/crypto-ops/main.go:123-128 | a batch with one secret, no public randomness and no proofs decodes successfully |
| RandListCodec.ReencodeKeepsProofData | deployments/btc-staking-integration-bitcoind/btc-staking-demo/cmd/crypto-ops/main.go:160-165 | any decoded `ProofListData`, re-encoded, gives back the same `uint64` fields, including values of 2^63 and above |
| FinalitySignature.FinalityMessage | deployments/rollup-btc-staking-demo/crypto-ops-tool/cmd/crypto-ops/main.go:542 | the message has length 8 + len(blockHash). Its first eight bytes read back as the height and the rest is the block hash |
| FinalitySignature.MessageInjective | deployments/btc-staking-integration-bitcoind/btc-staking-demo/cmd/crypto-ops/main.go:349 | different (height, block hash) pairs give different messages |
| FinalitySignature.GenerateFinalitySignatureAsWritten | deployments/rollup-btc-staking-demo/crypto-ops-tool/cmd/crypto-ops/main.go:545-564 | the code as written. Height 0 is refused. A panic happens only at an index that passed the `SRList` check but is negative (only for heights above 2^63) or beyond `PRList`/`ProofList`. A signed vote uses index height-1 for the public randomness and the proof |
| FinalitySignature.GenerateFinalitySignature | deployments/rollup-btc-staking-demo/crypto-ops-tool/cmd/crypto-ops/main.go:532-569 | success exactly when height >= 1, index height-1 is inside all three lists and signing succeeds. The vote then carries that index, `PRList[index]` marshalled, `ProofList[index]`, and the signature of the message with `SRList[index]`. Height 0 is the only `HeightBelowOne` case. `SigningFailed` is reported exactly when height >= 1, the index is inside all three lists and `eots.Sign` fails. An out-of-range error is reported exactly when height >= 1 and index height-1 lies beyond one of the three lists. It names the height, index height-1 and the shortest list's length |
| FinalitySignature.CorrectedAgreesWithSource | deployments/rollup-btc-staking-demo/crypto-ops-tool/cmd/crypto-ops/main.go:545-564 | at heights up to 2^63, with `PRList` and `ProofList` no shorter than `SRList`, the code as written never panics and agrees with the corrected rule |
| FinalitySignature.HugeHeightPanicsAsWritten | deployments/rollup-btc-staking-demo/crypto-ops-tool/cmd/crypto-ops/main.go:548-549 | at height 2^63+1 the code as written panics at index -2^63, and the corrected rule reports the index as out of range |
| FinalitySignature.ShortListsPanicAsWritten | deployments/btc-staking-integration-bitcoind/btc-staking-demo/cmd/crypto-ops/main.go:355-374 | a decodable batch with one secret and empty `PRList`/`ProofList` panics at height 1 as written. The corrected rule reports index 0 as out of range |
| FinalitySignature.OneHeightPerIndex | deployments/rollup-btc-staking-demo/crypto-ops-tool/cmd/crypto-ops/main.go:548 | the index ignores everything but the height: two successful votes at one index are for one height. Their messages are equal exactly when their block hashes are |
| FinalitySignature.SubmitFinalitySignature | deployments/rollup-btc-staking-demo/crypto-ops-tool/cmd/crypto-ops/main.go:372-405 | built on the corrected index rule of `GenerateFinalitySignature` (see "## Findings"). The contract message carries the height, the block hash, `PRList[height-1]` marshalled, proof fields that cast back to `ProofList[height-1]`, and the signature from `SRList[height-1]`. The returned index is height-1. It fails exactly when the corrected signature generation fails, with the same error (the bitcoind tool has the same code at cmd/crypto-ops/main.go:349-388) |
| Confirmation.VerifyPublicRandomnessCommitment | deployments/rollup-btc-staking-demo/crypto-ops-tool/cmd/crypto-ops/main.go:317-347 | passes exactly when a commitment is stored with the expected start height, count and bytes. A failed query, a failed parse, a null answer and an unparsable commitment each give their own error. Otherwise the first mismatch is reported, in the order start height, count, bytes, each with the expected and the stored value (the bitcoind tool has the same code at cmd/crypto-ops/main.go:294-324) |
| Confirmation.VotersQuery | deployments/rollup-btc-staking-demo/crypto-ops-tool/cmd/crypto-ops/main.go:464-468 | the `block_voters` query carries the height, and the block hash in lowercase hex that decodes back to the hash |
| Confirmation.VerifyFinalitySignature | deployments/rollup-btc-staking-demo/crypto-ops-tool/cmd/crypto-ops/main.go:494-504 | the `found` search passes exactly when the expected voter occurs in the voter list (the bitcoind tool has the same code at cmd/crypto-ops/main.go:450-460) |
| Confirmation.FirstPass | deployments/rollup-btc-staking-demo/crypto-ops-tool/cmd/crypto-ops/main.go:267-273 | the attempt a retry loop stops at is the first passing one within the budget, or none when all fail |
| Confirmation.RetryBounds | deployments/rollup-btc-staking-demo/crypto-ops-tool/cmd/crypto-ops/main.go:264-284 | at most `maxRetries` checks are made. The loop confirms exactly when some attempt within the budget passes, and it stops at that attempt. There is one sleep fewer than checks, so none after the last. On exhaustion every attempt failed |
| Confirmation.NoRetriesNoQuery | deployments/rollup-btc-staking-demo/crypto-ops-tool/cmd/crypto-ops/main.go:267 | with `maxRetries <= 0` no check is made and failure is reported with no last error |
| Confirmation.MoreRetriesKeepVerified | deployments/rollup-btc-staking-demo/crypto-ops-tool/cmd/crypto-ops/main.go:267-273 | a larger retry budget keeps a confirmation, with the same attempt, calls and sleeps |
| Confirmation.SingleCheckIsOneAttempt | deployments/btc-staking-integration-bitcoind/btc-staking-demo/cmd/crypto-ops/main.go:254-257 | the bitcoind tool's single verification is the one-attempt case of the retry contract |
| Confirmation.VerifyPublicRandomnessCommitmentWithRetry | deployments/rollup-btc-staking-demo/crypto-ops-tool/cmd/crypto-ops/main.go:264-284 | the loop's result, number of checks and number of sleeps are those of the retry contract over the commitment check. On exhaustion it carries `maxRetries` and the last attempt's error |
| Confirmation.VerifyFinalitySignatureWithRetry | deployments/rollup-btc-staking-demo/crypto-ops-tool/cmd/crypto-ops/main.go:440-460 | the same retry contract over the voter check |
| Confirmation.FinalitySignatureSummary | deployments/btc-staking-integration-bitcoind/btc-staking-demo/cmd/crypto-ops/main.go:407-415 | with the corrected index rule: the summary is returned exactly when signing succeeds and the voter list contains the signer. It names the height and index height-1. A signing failure is reported as such, and otherwise a failed voter check's error |
| Confirmation.RollupBudgetExhausts | deployments/rollup-btc-staking-demo/crypto-ops-tool/cmd/crypto-ops/main.go:255 | with the rollup budget of 5 and a contract that never confirms, there are 5 checks and 4 sleeps, and the fifth answer's error is reported |
| Confirmation.RollupVoterRetry | deployments/rollup-btc-staking-demo/crypto-ops-tool/cmd/crypto-ops/main.go:430 | the voter retry loop with budget 5 confirms exactly when one of the first five answers lists the signer. Otherwise it reports the fifth answer's error |
| Confirmation.RollupFinalitySignatureSummary | deployments/rollup-btc-staking-demo/crypto-ops-tool/cmd/crypto-ops/main.go:428-437 | with the corrected index rule: the summary is emitted exactly when signing succeeds and one of five voter checks finds the signer. It names the height and index height-1. Otherwise the signing error, or the fifth check's error, is reported |
| StakingDemo.FirstActive | deployments/btc-staking-integration-bitcoind/btc-staking-demo/btc-staking-demo.go:422-443 | the poll the loop returns at is the first, within the bound, with at least one active delegation |
| StakingDemo.WaitForDelegationActivation | deployments/btc-staking-integration-bitcoind/btc-staking-demo/btc-staking-demo.go:419-450 | at most 30 polls. The first poll with a count >= 1 returns that count, after one sleep per earlier poll. Otherwise, after 30 polls and 30 sleeps, it returns 0 and an error. It succeeds exactly when some poll within the bound is active |
| StakingDemo.FailedPollsCountAsZero | deployments/btc-staking-integration-bitcoind/btc-staking-demo/btc-staking-demo.go:423-438 | a failed query or parse moves on exactly like a poll with no active delegation: which poll succeeds and its count are unchanged |
| StakingDemo.StakeBTC | deployments/btc-staking-integration-bitcoind/btc-staking-demo/btc-staking-demo.go:368-417 | an empty outputs list is an error. The stake request uses the first output's address. It succeeds exactly when the delegation's tx hash is neither `""` nor `"null"`, and then returns that hash unchanged. A delegation with an empty or `"null"` hash gives exactly the invalid-hash error |
| StakingDemo.SelectContract | deployments/btc-staking-integration-bitcoind/btc-staking-demo/btc-staking-demo.go:226-237 | succeeds exactly when the contracts list is non-empty, and then returns the first address. An empty list is "no contracts found" |

## Left out

- Process I/O: `execDockerCommand` and every `babylond`/`stakercli` invocation. Their parsed answers are parameters.
- JSON marshalling of the contract messages and unmarshalling of answers. Only the fields the code reads are modelled. The "failed to marshal" errors of message construction cannot occur for these values and are not modelled.
- `time.Sleep`: sleeps are counted (`sleeps`). Their durations (3 seconds between rollup retries, 10 seconds between polls, the fixed 5-second wait of the bitcoind tool) are not modelled.
- Foreign cryptography is uninterpreted:
  - `eots.Sign` and BIP340 key handling;
  - `PrivateRand.Bytes`/`SetByteSlice`, `SchnorrPubRand` marshalling and `merkle.ProofFromProto`;
  - randomness-list generation and Merkle trees (`GenRandomMsgCommitPubRandList`), `NewPoPBTC`.
- Commitment binding (the Merkle root over the public randomness) belongs to the foreign Merkle library and is not modelled.
- Random block hashes (`GenRandomByteArray`) and `mathrand` seeding: the block hash is a parameter.
- `main` argument dispatch, `strconv.ParseUint`, `printUsage`, and all log and error message text. Errors are datatype values carrying the same data.
- Sending the commit and vote transactions, the global key variables, and the orchestration steps of the staking demo (contract store and instantiate, `registerConsumer`, `createBabylonFP`, `createConsumerFP`). Only the selection guards are modelled.
- No "one vote per index" guard: the code keeps no record of used indices.
- RandListCodec.ConvertFromSerializable: Go allocates `SRList[i]` before the overflow check. The partly filled list is discarded on error, so the model builds only the returned value.
- FinalitySignature.GenerateFinalitySignature: returns the marshalled public randomness, the proof and the marshalled signature. The BIP340 public key it also returns is left out.
- FinalitySignature.SubmitFinalitySignature: uses the corrected index rule, which checks all three list lengths before signing and names the shortest list. At a height above 2^63, or when `PRList`/`ProofList` is shorter than the index, the source panics and the model returns `IndexOutOfRange` (see "## Findings"). When `PRList`/`ProofList` is shorter than `SRList`, the model also returns `IndexOutOfRange` where the source returns its signing error or names `len(SRList)` as the available count. Agreement with the source is proved only where `PRList` and `ProofList` are no shorter than `SRList` and the height is at most 2^63 (`CorrectedAgreesWithSource`).
- Confirmation.FinalitySignatureSummary: uses the corrected index rule, so it reports `IndexOutOfRange` where the bitcoind tool panics, and on short `PRList`/`ProofList` in the cases listed for `SubmitFinalitySignature`.
- Confirmation.RollupFinalitySignatureSummary: uses the corrected index rule, so it reports `IndexOutOfRange` where the rollup tool panics, and on short `PRList`/`ProofList` in the cases listed for `SubmitFinalitySignature`.
- Confirmation.VerifyPublicRandomnessCommitmentWithRetry: `maxRetries` is an unbounded integer. Go's 64-bit `attempt++` could wrap only if `maxRetries` were the largest `int`, and the callers pass 5.

## Findings

| source | as written | input that shows it | evidently intended | confidence | as-written member | corrected member |
|---|---|---|---|---|---|---|
| deployments/rollup-btc-staking-demo/crypto-ops-tool/cmd/crypto-ops/main.go:548-549 | `randIndex := int(blockHeight - 1)` wraps to a negative `int` for heights above 2^63. The `>= len(SRList)` check then passes, and `SRList[randIndex]` panics | height 2^63+1 gives index -2^63 | reject any height whose index does not fit the list | not executed | FinalitySignature.HugeHeightPanicsAsWritten | FinalitySignature.GenerateFinalitySignature |
| deployments/btc-staking-integration-bitcoind/btc-staking-demo/cmd/crypto-ops/main.go:355-374 | only `len(SRList)` is checked, but `ProofList[randIndex]` and `PRList[randIndex]` are indexed too, and `ConvertFromSerializable` accepts lists of unequal length | a batch with one secret and no public randomness or proofs, at height 1 | check the index against all three lists and report it as out of range | not executed | FinalitySignature.ShortListsPanicAsWritten | FinalitySignature.GenerateFinalitySignature |
