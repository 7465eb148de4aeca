/** The polling and selection rules of the bitcoind staking demo: waiting for a
    BTC delegation to become active, and the guards `stakeBTC` and
    `deployFinalityContract` apply to the parsed answers of their commands.

    Each command's parsed answer is a parameter; the i-th poll sees `polls(i)`. */
module StakingDemo {
  import opened Basics

  /** One `btc-delegations active` poll: the command or its parse may fail,
      otherwise it reports how many delegations are active. */
  datatype PollResult = PollQueryFailed | PollParseFailed | ActiveDelegations(count: nat)

  /** Polls are made at most this many times (10 seconds apart). */
  const MAX_POLLS: nat := 30

  /** "delegation not activated after 5 minutes". */
  datatype ActivationError = NotActivated

  predicate IsActive(p: PollResult) {
    p.ActiveDelegations? && p.count >= 1
  }

  /** The first poll among `from`..`n` that reports an active delegation. */
  function FirstActive(polls: nat -> PollResult, from: nat, n: nat): (k: Option<nat>)
    ensures k.Some? ==>
      from <= k.value <= n && IsActive(polls(k.value)) &&
      forall j :: from <= j < k.value ==> !IsActive(polls(j))
    ensures k.None? ==> forall j :: from <= j <= n ==> !IsActive(polls(j))
    decreases n - from
  {
    if n < from then None
    else if IsActive(polls(from)) then Some(from)
    else FirstActive(polls, from + 1, n)
  }

  /** A poll that is active after only inactive ones is the first active one. */
  lemma FirstActiveIs(polls: nat -> PollResult, from: nat, n: nat, k: nat)
    requires from <= k <= n && IsActive(polls(k))
    requires forall j :: from <= j < k ==> !IsActive(polls(j))
    ensures FirstActive(polls, from, n) == Some(k)
  {
  }

  /** `waitForDelegationActivation`: polls 1..30; a failed query or parse, or no
      active delegation, means a sleep and the next poll; the first poll with at
      least one active delegation returns that count. After 30 polls it returns 0
      and an error. */
  method WaitForDelegationActivation(polls: nat -> PollResult)
    returns (active: nat, err: Option<ActivationError>, attempts: nat, sleeps: nat)
    ensures attempts <= MAX_POLLS
    ensures err.None? <==> exists i :: 1 <= i <= MAX_POLLS && IsActive(polls(i))
    ensures match FirstActive(polls, 1, MAX_POLLS)
      case Some(k) => active == polls(k).count && err.None? && attempts == k && sleeps == k - 1
      case None => active == 0 && err == Some(NotActivated) && attempts == MAX_POLLS && sleeps == MAX_POLLS
  {
    attempts, sleeps := 0, 0;
    for i := 1 to MAX_POLLS + 1
      invariant attempts == i - 1 && sleeps == i - 1
      invariant forall j :: 1 <= j < i ==> !IsActive(polls(j))
    {
      attempts := attempts + 1;
      match polls(i) {
        case PollQueryFailed =>
          sleeps := sleeps + 1;
          continue;
        case PollParseFailed =>
          sleeps := sleeps + 1;
          continue;
        case ActiveDelegations(count) =>
          if count >= 1 {
            FirstActiveIs(polls, 1, MAX_POLLS, i);
            return count, None, attempts, sleeps;
          }
          sleeps := sleeps + 1;
      }
    }
    return 0, Some(NotActivated), attempts, sleeps;
  }

  /** A failed poll is treated exactly like a poll that finds no active delegation:
      replacing every failure by a zero count changes neither which poll succeeds
      nor the count returned. */
  lemma FailedPollsCountAsZero(polls: nat -> PollResult, polls': nat -> PollResult)
    requires forall j :: polls'(j) == (if polls(j).ActiveDelegations? then polls(j) else ActiveDelegations(0))
    ensures FirstActive(polls, 1, MAX_POLLS) == FirstActive(polls', 1, MAX_POLLS)
    ensures FirstActive(polls, 1, MAX_POLLS).Some? ==>
      polls(FirstActive(polls, 1, MAX_POLLS).value) == polls'(FirstActive(polls, 1, MAX_POLLS).value)
  {
    assert forall j :: IsActive(polls(j)) <==> IsActive(polls'(j));
    match FirstActive(polls, 1, MAX_POLLS)
    case Some(k) => FirstActiveIs(polls', 1, MAX_POLLS, k);
    case None =>
  }

  /** One entry of `stakercli dn list-outputs`. */
  datatype Output = Output(address: string)

  datatype OutputsResponse = OutputsQueryFailed | OutputsParseFailed | Outputs(outputs: seq<Output>)

  /** The arguments of `stakercli dn stake`. */
  datatype StakeRequest = StakeRequest(
    stakerAddress: string, stakingAmount: string, finalityProviderPks: seq<string>, stakingTime: string)

  datatype DelegationResponse = StakeCommandFailed | DelegationParseFailed | Delegation(txHash: string)

  datatype StakeError =
    | ListOutputsFailed
    | ParseOutputsFailed
    | NoOutputs
    | CreateDelegationFailed
    | ParseDelegationFailed
    | InvalidTxHash

  /** 1,000,000 satoshis for 10,000 blocks, delegated to both finality providers. */
  function StakeRequestFor(stakerAddress: string, bbnBtcPk: string, consumerBtcPk: string): StakeRequest {
    StakeRequest(stakerAddress, "1000000", [bbnBtcPk, consumerBtcPk], "10000")
  }

  /** The guards of `stakeBTC`: the staker address is the first listed output's,
      and the delegation's transaction hash is returned only when it is neither
      empty nor `"null"`. `stake` is the answer of the stake command. */
  method StakeBTC(
    outputs: OutputsResponse, stake: StakeRequest -> DelegationResponse, bbnBtcPk: string, consumerBtcPk: string)
    returns (r: Result<string, StakeError>)
    ensures outputs == Outputs([]) ==> r == Failure(NoOutputs)
    ensures r.Success? <==>
      outputs.Outputs? && |outputs.outputs| > 0 &&
      var d := stake(StakeRequestFor(outputs.outputs[0].address, bbnBtcPk, consumerBtcPk));
      d.Delegation? && d.txHash != "" && d.txHash != "null"
    ensures r.Success? ==>
      r.value == stake(StakeRequestFor(outputs.outputs[0].address, bbnBtcPk, consumerBtcPk)).txHash
    ensures (outputs.Outputs? && |outputs.outputs| > 0 &&
             var d := stake(StakeRequestFor(outputs.outputs[0].address, bbnBtcPk, consumerBtcPk));
             d.Delegation? && (d.txHash == "" || d.txHash == "null")) ==>
      r == Failure(InvalidTxHash)
    ensures r == Failure(InvalidTxHash) ==>
      outputs.Outputs? && |outputs.outputs| > 0 &&
      var d := stake(StakeRequestFor(outputs.outputs[0].address, bbnBtcPk, consumerBtcPk));
      d.Delegation? && (d.txHash == "" || d.txHash == "null")
  {
    var list: seq<Output>;
    match outputs {
      case OutputsQueryFailed =>
        return Failure(ListOutputsFailed);
      case OutputsParseFailed =>
        return Failure(ParseOutputsFailed);
      case Outputs(os) =>
        list := os;
    }
    if |list| == 0 {
      return Failure(NoOutputs);
    }
    var stakerAddr := list[0].address;
    var delegation := stake(StakeRequestFor(stakerAddr, bbnBtcPk, consumerBtcPk));
    var txHash: string;
    match delegation {
      case StakeCommandFailed =>
        return Failure(CreateDelegationFailed);
      case DelegationParseFailed =>
        return Failure(ParseDelegationFailed);
      case Delegation(h) =>
        txHash := h;
    }
    if txHash == "" || txHash == "null" {
      return Failure(InvalidTxHash);
    }
    return Success(txHash);
  }

  datatype ContractsResponse = ContractsQueryFailed | ContractsParseFailed | Contracts(contracts: seq<string>)

  datatype ContractError = ListContractsFailed | ParseContractsFailed | NoContracts

  /** The final step of `deployFinalityContract`: the address of the first contract
      listed for code 1, or an error when the list is empty. */
  method SelectContract(response: ContractsResponse) returns (r: Result<string, ContractError>)
    ensures r.Success? <==> response.Contracts? && |response.contracts| > 0
    ensures r.Success? ==> r.value == response.contracts[0]
    ensures response == Contracts([]) ==> r == Failure(NoContracts)
  {
    var contracts: seq<string>;
    match response {
      case ContractsQueryFailed =>
        return Failure(ListContractsFailed);
      case ContractsParseFailed =>
        return Failure(ParseContractsFailed);
      case Contracts(cs) =>
        contracts := cs;
    }
    if |contracts| == 0 {
      return Failure(NoContracts);
    }
    return Success(contracts[0]);
  }
}
