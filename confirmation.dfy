/** The on-chain confirmation checks of the crypto-ops tools: the stored
    public-randomness commitment is compared field by field with what was
    submitted, a finality vote is confirmed by finding the signer among the block's
    voters, and the rollup tool repeats either check a bounded number of times.

    Each query's parsed answer is a parameter; the k-th attempt of a retry loop
    sees `responses(k)`, the answer the contract gave to that attempt. */
module Confirmation {
  import opened Basics
  import Hex
  import opened RandListCodec
  import opened FinalitySignature

  /** The parsed answer to the `last_pub_rand_commit` query. */
  datatype CommitResponse =
    | CommitQueryFailed
    | CommitParseFailed
    | NullCommitment
    | CommitDataParseFailed
    | StoredCommitment(startHeight: uint64, numPubRand: uint64, commitment: seq<byte>)

  /** The parsed answer to the `block_voters` query: `data` is the voter list, and
      a JSON `null` parses as the empty list. */
  datatype VotersResponse =
    | VotersQueryFailed
    | VotersParseFailed
    | Voters(data: seq<string>)

  datatype VerifyError =
    | QueryFailed
    | ResponseParseFailed
    | CommitmentNotFound
    | CommitmentDataParseFailed
    | StartHeightMismatch(expected: uint64, got: uint64)
    | NumPubRandMismatch(expected: uint64, got: uint64)
    | CommitmentMismatch(expectedBytes: seq<byte>, gotBytes: seq<byte>)
    | VoterNotFound(voter: string)

  /** `verifyPublicRandomnessCommitment`: passes exactly when a commitment is stored
      with the expected start height, count and bytes; otherwise the first
      mismatch, in the order start height, count, bytes, is reported. */
  function VerifyPublicRandomnessCommitment(
    response: CommitResponse, expectedStartHeight: uint64, expectedNumPubRand: uint64,
    expectedCommitment: seq<byte>): (r: Outcome<VerifyError>)
    ensures r.Pass? <==>
      response == StoredCommitment(expectedStartHeight, expectedNumPubRand, expectedCommitment)
    ensures response.CommitQueryFailed? ==> r == Fail(QueryFailed)
    ensures response.CommitParseFailed? ==> r == Fail(ResponseParseFailed)
    ensures response.NullCommitment? ==> r == Fail(CommitmentNotFound)
    ensures response.CommitDataParseFailed? ==> r == Fail(CommitmentDataParseFailed)
    ensures response.StoredCommitment? && response.startHeight != expectedStartHeight ==>
      r == Fail(StartHeightMismatch(expectedStartHeight, response.startHeight))
    ensures (response.StoredCommitment? && response.startHeight == expectedStartHeight &&
             response.numPubRand != expectedNumPubRand) ==>
      r == Fail(NumPubRandMismatch(expectedNumPubRand, response.numPubRand))
    ensures (response.StoredCommitment? && response.startHeight == expectedStartHeight &&
             response.numPubRand == expectedNumPubRand && response.commitment != expectedCommitment) ==>
      r == Fail(CommitmentMismatch(expectedCommitment, response.commitment))
    ensures r.Fail? && r.error.NumPubRandMismatch? ==>
      response.StoredCommitment? && response.startHeight == expectedStartHeight &&
      r.error == NumPubRandMismatch(expectedNumPubRand, response.numPubRand) &&
      response.numPubRand != expectedNumPubRand
    ensures r.Fail? && r.error.CommitmentMismatch? ==>
      response.StoredCommitment? && response.startHeight == expectedStartHeight &&
      response.numPubRand == expectedNumPubRand && response.commitment != expectedCommitment
  {
    match response
    case CommitQueryFailed => Fail(QueryFailed)
    case CommitParseFailed => Fail(ResponseParseFailed)
    case NullCommitment => Fail(CommitmentNotFound)
    case CommitDataParseFailed => Fail(CommitmentDataParseFailed)
    case StoredCommitment(startHeight, numPubRand, commitment) =>
      if startHeight != expectedStartHeight then Fail(StartHeightMismatch(expectedStartHeight, startHeight))
      else if numPubRand != expectedNumPubRand then Fail(NumPubRandMismatch(expectedNumPubRand, numPubRand))
      else if commitment != expectedCommitment then Fail(CommitmentMismatch(expectedCommitment, commitment))
      else Pass
  }

  /** The `block_voters` query: the height and the block hash as lowercase hex,
      from which the hash can be read back. */
  datatype BlockVotersQuery = BlockVotersQuery(height: uint64, hash: string)

  function VotersQuery(height: uint64, blockAppHash: seq<byte>): (q: BlockVotersQuery)
    ensures q.height == height
    ensures Hex.Decode(q.hash) == Some(blockAppHash)
    ensures forall i :: 0 <= i < |q.hash| ==> Hex.IsLowerHexDigit(q.hash[i])
  {
    Hex.DecodeEncode(blockAppHash);
    BlockVotersQuery(height, Hex.Encode(blockAppHash))
  }

  /** What `verifyFinalitySignature` decides: the vote is confirmed exactly when the
      expected voter occurs in the returned voter list. */
  function VoterCheck(response: VotersResponse, expectedVoter: string): Outcome<VerifyError> {
    match response
    case VotersQueryFailed => Fail(QueryFailed)
    case VotersParseFailed => Fail(ResponseParseFailed)
    case Voters(data) => if expectedVoter in data then Pass else Fail(VoterNotFound(expectedVoter))
  }

  /** `verifyFinalitySignature`: a linear search with a `found` flag that stops at
      the first match. */
  method VerifyFinalitySignature(response: VotersResponse, expectedVoter: string)
    returns (r: Outcome<VerifyError>)
    ensures r == VoterCheck(response, expectedVoter)
    ensures r.Pass? <==> response.Voters? && exists i :: 0 <= i < |response.data| && response.data[i] == expectedVoter
  {
    match response {
      case VotersQueryFailed =>
        return Fail(QueryFailed);
      case VotersParseFailed =>
        return Fail(ResponseParseFailed);
      case Voters(data) =>
        var found := false;
        var i := 0;
        while i < |data|
          invariant 0 <= i <= |data|
          invariant !found
          invariant forall j :: 0 <= j < i ==> data[j] != expectedVoter
        {
          if data[i] == expectedVoter {
            found := true;
            break;
          }
          i := i + 1;
        }
        if !found {
          return Fail(VoterNotFound(expectedVoter));
        }
        return Pass;
    }
  }

  /** The first attempt among `from`..`n` whose check passes. */
  function FirstPass(outcomes: nat -> Outcome<VerifyError>, from: nat, n: int): (k: Option<nat>)
    ensures k.Some? ==>
      from <= k.value <= n && outcomes(k.value).Pass? &&
      forall j :: from <= j < k.value ==> outcomes(j).Fail?
    ensures k.None? ==> forall j :: from <= j <= n ==> outcomes(j).Fail?
    decreases n - from
  {
    if n < from then None
    else if outcomes(from).Pass? then Some(from)
    else FirstPass(outcomes, from + 1, n)
  }

  /** An attempt that passes after only failures is the first passing one. */
  lemma FirstPassIs(outcomes: nat -> Outcome<VerifyError>, from: nat, n: int, k: nat)
    requires from <= k <= n && outcomes(k).Pass?
    requires forall j :: from <= j < k ==> outcomes(j).Fail?
    ensures FirstPass(outcomes, from, n) == Some(k)
  {
  }

  datatype RetryResult =
    | Verified(attempt: nat)
    | Exhausted(maxRetries: int, lastError: Option<VerifyError>)

  /** What a retry loop does: its result, how many checks it ran and how many
      times it slept. */
  datatype RetryReport = RetryReport(result: RetryResult, calls: nat, sleeps: nat)

  /** The retry contract: attempts 1, 2, ... up to `maxRetries` are made until one
      passes; a sleep separates consecutive attempts; when every attempt fails the
      error of the last one is reported (none when no attempt was made). */
  function RetrySpec(outcomes: nat -> Outcome<VerifyError>, maxRetries: int): RetryReport {
    match FirstPass(outcomes, 1, maxRetries)
    case Some(k) => RetryReport(Verified(k), k, k - 1)
    case None =>
      if maxRetries <= 0 then RetryReport(Exhausted(maxRetries, None), 0, 0)
      else RetryReport(Exhausted(maxRetries, Some(outcomes(maxRetries).error)), maxRetries, maxRetries - 1)
  }

  /** At most `maxRetries` checks are made, the loop stops at the first passing
      attempt, and there is one sleep fewer than checks: none after the last. */
  lemma RetryBounds(outcomes: nat -> Outcome<VerifyError>, maxRetries: int)
    ensures var rep := RetrySpec(outcomes, maxRetries);
      rep.calls <= (if maxRetries <= 0 then 0 else maxRetries) &&
      (rep.calls == 0 ==> rep.sleeps == 0) &&
      (rep.calls > 0 ==> rep.sleeps == rep.calls - 1) &&
      (rep.result.Verified? <==> exists j :: 1 <= j <= maxRetries && outcomes(j).Pass?) &&
      (rep.result.Verified? ==> rep.calls == rep.result.attempt && outcomes(rep.calls).Pass?) &&
      (rep.result.Exhausted? ==> forall j :: 1 <= j <= maxRetries ==> outcomes(j).Fail?)
  {
  }

  /** With `maxRetries <= 0` no query is made and failure is reported. */
  lemma NoRetriesNoQuery(outcomes: nat -> Outcome<VerifyError>, maxRetries: int)
    requires maxRetries <= 0
    ensures RetrySpec(outcomes, maxRetries) == RetryReport(Exhausted(maxRetries, None), 0, 0)
  {
  }

  /** Raising the retry budget never turns a confirmation into a failure, and the
      confirming attempt stays the same. */
  lemma MoreRetriesKeepVerified(outcomes: nat -> Outcome<VerifyError>, n: int, m: int)
    requires n <= m
    requires RetrySpec(outcomes, n).result.Verified?
    ensures RetrySpec(outcomes, m) == RetrySpec(outcomes, n)
  {
    FirstPassIs(outcomes, 1, m, FirstPass(outcomes, 1, n).value);
  }

  /** A single verification, as the bitcoind tool does, is the one-attempt case
      of the retry contract. */
  lemma SingleCheckIsOneAttempt(outcomes: nat -> Outcome<VerifyError>)
    ensures RetrySpec(outcomes, 1).result ==
      (if outcomes(1).Pass? then Verified(1) else Exhausted(1, Some(outcomes(1).error)))
  {
  }

  /** The check of each attempt of `verifyPublicRandomnessCommitmentWithRetry`. */
  function CommitOutcomes(
    responses: nat -> CommitResponse, expectedStartHeight: uint64, expectedNumPubRand: uint64,
    expectedCommitment: seq<byte>): nat -> Outcome<VerifyError>
  {
    (k: nat) => VerifyPublicRandomnessCommitment(responses(k), expectedStartHeight, expectedNumPubRand, expectedCommitment)
  }

  /** The check of each attempt of `verifyFinalitySignatureWithRetry`. */
  function VoterOutcomes(responses: nat -> VotersResponse, expectedVoter: string): nat -> Outcome<VerifyError> {
    (k: nat) => VoterCheck(responses(k), expectedVoter)
  }

  /** `verifyPublicRandomnessCommitmentWithRetry`. */
  method VerifyPublicRandomnessCommitmentWithRetry(
    responses: nat -> CommitResponse, expectedStartHeight: uint64, expectedNumPubRand: uint64,
    expectedCommitment: seq<byte>, maxRetries: int)
    returns (result: RetryResult, calls: nat, sleeps: nat)
    ensures RetryReport(result, calls, sleeps) ==
      RetrySpec(CommitOutcomes(responses, expectedStartHeight, expectedNumPubRand, expectedCommitment), maxRetries)
  {
    var outcomes := CommitOutcomes(responses, expectedStartHeight, expectedNumPubRand, expectedCommitment);
    var lastErr: Option<VerifyError> := None;
    calls, sleeps := 0, 0;
    var attempt: nat := 1;
    while attempt <= maxRetries
      invariant 1 <= attempt <= (if maxRetries >= 1 then maxRetries + 1 else 1)
      invariant calls == attempt - 1
      invariant attempt <= maxRetries ==> sleeps == attempt - 1
      invariant attempt > maxRetries ==> sleeps == (if attempt == 1 then 0 else attempt - 2)
      invariant attempt == 1 ==> lastErr.None?
      invariant attempt > 1 ==> outcomes(attempt - 1).Fail? && lastErr == Some(outcomes(attempt - 1).error)
      invariant forall j :: 1 <= j < attempt ==> outcomes(j).Fail?
      decreases maxRetries - attempt
    {
      var err := VerifyPublicRandomnessCommitment(responses(attempt), expectedStartHeight, expectedNumPubRand, expectedCommitment);
      assert err == outcomes(attempt);
      calls := calls + 1;
      if err.Pass? {
        FirstPassIs(outcomes, 1, maxRetries, attempt);
        result := Verified(attempt);
        return;
      }
      lastErr := Some(err.error);
      if attempt < maxRetries {
        sleeps := sleeps + 1;
      }
      attempt := attempt + 1;
    }
    result := Exhausted(maxRetries, lastErr);
  }

  /** `verifyFinalitySignatureWithRetry`. */
  method VerifyFinalitySignatureWithRetry(
    responses: nat -> VotersResponse, expectedVoter: string, maxRetries: int)
    returns (result: RetryResult, calls: nat, sleeps: nat)
    ensures RetryReport(result, calls, sleeps) == RetrySpec(VoterOutcomes(responses, expectedVoter), maxRetries)
  {
    var outcomes := VoterOutcomes(responses, expectedVoter);
    var lastErr: Option<VerifyError> := None;
    calls, sleeps := 0, 0;
    var attempt: nat := 1;
    while attempt <= maxRetries
      invariant 1 <= attempt <= (if maxRetries >= 1 then maxRetries + 1 else 1)
      invariant calls == attempt - 1
      invariant attempt <= maxRetries ==> sleeps == attempt - 1
      invariant attempt > maxRetries ==> sleeps == (if attempt == 1 then 0 else attempt - 2)
      invariant attempt == 1 ==> lastErr.None?
      invariant attempt > 1 ==> outcomes(attempt - 1).Fail? && lastErr == Some(outcomes(attempt - 1).error)
      invariant forall j :: 1 <= j < attempt ==> outcomes(j).Fail?
      decreases maxRetries - attempt
    {
      var err := VerifyFinalitySignature(responses(attempt), expectedVoter);
      assert err == outcomes(attempt);
      calls := calls + 1;
      if err.Pass? {
        FirstPassIs(outcomes, 1, maxRetries, attempt);
        result := Verified(attempt);
        return;
      }
      lastErr := Some(err.error);
      if attempt < maxRetries {
        sleeps := sleeps + 1;
      }
      attempt := attempt + 1;
    }
    result := Exhausted(maxRetries, lastErr);
  }

  /** The retry budget the rollup tool passes to both retry loops (attempts are 3
      seconds apart). */
  const ROLLUP_MAX_RETRIES: int := 5

  /** With the rollup tool's budget, a contract that never confirms is asked five
      times, with four sleeps between, and the fifth answer's error is reported. */
  lemma RollupBudgetExhausts(outcomes: nat -> Outcome<VerifyError>)
    requires forall k :: outcomes(k).Fail?
    ensures RetrySpec(outcomes, ROLLUP_MAX_RETRIES) ==
      RetryReport(Exhausted(5, Some(outcomes(5).error)), 5, 4)
  {
    assert FirstPass(outcomes, 6, 5) == None;
  }

  datatype SubmitError = SignFailed(signError: SignError) | NotConfirmed(verifyError: VerifyError)

  /** The bitcoind tool's `submitFinalitySignature` after the transaction: the vote
      is checked once against the `block_voters` answer, and only a confirmed vote
      yields the summary naming the height and the randomness index. Signing uses
      the corrected index rule of `GenerateFinalitySignature`: where the source
      panics it reports `IndexOutOfRange`. */
  function FinalitySignatureSummary<K, S, P>(
    lib: Lib<S, P>, sign: (K, S, seq<byte>) -> Option<seq<byte>>, sk: K,
    info: RandListInfo<S, P>, height: uint64, appHash: seq<byte>,
    expectedVoter: string, response: VotersResponse): (r: Result<Summary, SubmitError>)
    ensures r.Success? <==>
      GenerateFinalitySignature(lib, sign, sk, info, height, appHash).Success? &&
      response.Voters? && expectedVoter in response.data
    ensures r.Success? ==> r.value.height == height && r.value.index + 1 == height as int
    ensures GenerateFinalitySignature(lib, sign, sk, info, height, appHash).Failure? ==>
      r == Failure(SignFailed(GenerateFinalitySignature(lib, sign, sk, info, height, appHash).error))
    ensures (GenerateFinalitySignature(lib, sign, sk, info, height, appHash).Success? &&
             VoterCheck(response, expectedVoter).Fail?) ==>
      r == Failure(NotConfirmed(VoterCheck(response, expectedVoter).error))
  {
    match SubmitFinalitySignature(lib, sign, sk, info, height, appHash)
    case Failure(e) => Failure(SignFailed(e))
    case Success(sub) =>
      match VoterCheck(response, expectedVoter)
      case Fail(e) => Failure(NotConfirmed(e))
      case Pass => Success(Summary(height, sub.index))
  }

  /** With the rollup budget, the voter retry loop confirms exactly when one of the
      first five answers lists the signer, and otherwise reports the fifth answer's
      error. */
  lemma RollupVoterRetry(responses: nat -> VotersResponse, expectedVoter: string)
    ensures var rep := RetrySpec(VoterOutcomes(responses, expectedVoter), ROLLUP_MAX_RETRIES);
      (rep.result.Verified? <==>
        exists k :: 1 <= k <= ROLLUP_MAX_RETRIES && VoterCheck(responses(k), expectedVoter).Pass?) &&
      (rep.result.Exhausted? ==>
        VoterCheck(responses(ROLLUP_MAX_RETRIES), expectedVoter).Fail? &&
        rep.result.lastError == Some(VoterCheck(responses(ROLLUP_MAX_RETRIES), expectedVoter).error))
  {
    var outcomes := VoterOutcomes(responses, expectedVoter);
    RetryBounds(outcomes, ROLLUP_MAX_RETRIES);
    assert forall k: nat :: outcomes(k) == VoterCheck(responses(k), expectedVoter);
  }

  /** The rollup tool's `submitFinalitySignature` after the transaction: the vote is
      checked by `verifyFinalitySignatureWithRetry` with a budget of five attempts,
      and the summary line is emitted only once an attempt finds the signer; after
      five failures the last attempt's error is reported. Signing uses the
      corrected index rule, as in `FinalitySignatureSummary`. */
  function RollupFinalitySignatureSummary<K, S, P>(
    lib: Lib<S, P>, sign: (K, S, seq<byte>) -> Option<seq<byte>>, sk: K,
    info: RandListInfo<S, P>, height: uint64, appHash: seq<byte>,
    expectedVoter: string, responses: nat -> VotersResponse): (r: Result<Summary, SubmitError>)
    ensures r.Success? <==>
      GenerateFinalitySignature(lib, sign, sk, info, height, appHash).Success? &&
      exists k :: 1 <= k <= ROLLUP_MAX_RETRIES && VoterCheck(responses(k), expectedVoter).Pass?
    ensures r.Success? ==> r.value.height == height && r.value.index + 1 == height as int
    ensures GenerateFinalitySignature(lib, sign, sk, info, height, appHash).Failure? ==>
      r == Failure(SignFailed(GenerateFinalitySignature(lib, sign, sk, info, height, appHash).error))
    ensures GenerateFinalitySignature(lib, sign, sk, info, height, appHash).Success? && r.Failure? ==>
      r == Failure(NotConfirmed(VoterCheck(responses(ROLLUP_MAX_RETRIES), expectedVoter).error))
  {
    match SubmitFinalitySignature(lib, sign, sk, info, height, appHash)
    case Failure(e) => Failure(SignFailed(e))
    case Success(sub) =>
      RollupVoterRetry(responses, expectedVoter);
      match RetrySpec(VoterOutcomes(responses, expectedVoter), ROLLUP_MAX_RETRIES).result
      case Verified(_) => Success(Summary(height, sub.index))
      case Exhausted(_, lastErr) => Failure(NotConfirmed(lastErr.value))
  }
}
