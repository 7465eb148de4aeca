/** The height-to-randomness rule of `generateFinalitySignature` and
    `submitFinalitySignature`: the signed message, the index into the committed
    randomness list, and what a finality vote discloses.

    `eots.Sign` is the uninterpreted parameter `sign`; it returns the marshalled
    signature, or `None` for its error. */
module FinalitySignature {
  import opened Basics
  import BigEndian
  import opened RandListCodec

  /** The message an EOTS signature covers: `sdk.Uint64ToBigEndian(height)` followed
      by the block hash. The height can be read back from the first eight bytes. */
  function FinalityMessage(height: uint64, blockHash: seq<byte>): (msg: seq<byte>)
    ensures |msg| == 8 + |blockHash|
    ensures BigEndian.FromBigEndian(msg[..8]) == height as nat
    ensures msg[8..] == blockHash
  {
    var prefix := BigEndian.Uint64ToBigEndian(height);
    assert (prefix + blockHash)[..8] == prefix;
    prefix + blockHash
  }

  /** Different (height, block hash) pairs never produce the same message. */
  lemma MessageInjective(h1: uint64, b1: seq<byte>, h2: uint64, b2: seq<byte>)
    requires FinalityMessage(h1, b1) == FinalityMessage(h2, b2)
    ensures h1 == h2 && b1 == b2
  {
    var m := FinalityMessage(h1, b1);
    assert BigEndian.FromBigEndian(m[..8]) == h1 as nat == h2 as nat;
  }

  datatype SignError =
    | HeightBelowOne(height: uint64)
    | IndexOutOfRange(height: uint64, index: int, available: nat)
    | SigningFailed

  /** What a finality vote discloses: the randomness index used, the marshalled public
      randomness, its inclusion proof and the signature. */
  datatype Vote = Vote(index: nat, pubRand: seq<byte>, proof: Proof, signature: seq<byte>)

  /** The outcomes of the code as written, including Go's index-out-of-range panic. */
  datatype AsWritten = Signed(vote: Vote) | Refused(error: SignError) | IndexPanic(index: int)

  function Min(a: nat, b: nat): nat {
    if a <= b then a else b
  }

  /** The source as written: `randIndex := int(blockHeight - 1)` wraps to a negative
      number for heights above 2^63, and only `len(SRList)` is checked before
      `SRList`, `PRList` and `ProofList` are indexed. */
  function GenerateFinalitySignatureAsWritten<K, S, P>(
    lib: Lib<S, P>, sign: (K, S, seq<byte>) -> Option<seq<byte>>, sk: K,
    info: RandListInfo<S, P>, height: uint64, blockHash: seq<byte>): (r: AsWritten)
    ensures r == Refused(HeightBelowOne(height)) <==> height == 0
    ensures r.IndexPanic? ==>
      1 <= height && r.index < |info.srList| &&
      (r.index < 0 || r.index >= |info.prList| || r.index >= |info.proofList|)
    ensures r.IndexPanic? && r.index < 0 ==> height as int > TWO_TO_63
    ensures r.Signed? ==>
      var i := r.vote.index;
      i + 1 == height as int && i < |info.srList| && i < |info.prList| && i < |info.proofList| &&
      r.vote.pubRand == lib.marshalPubRand(info.prList[i]) && r.vote.proof == info.proofList[i]
  {
    var msg := FinalityMessage(height, blockHash);
    if height < 1 then Refused(HeightBelowOne(height))
    else
      var randIndex := Int64FromUint64(height - 1) as int;
      if randIndex >= |info.srList| then Refused(IndexOutOfRange(height, randIndex, |info.srList|))
      else if randIndex < 0 then IndexPanic(randIndex)
      else
        match sign(sk, info.srList[randIndex], msg)
        case None => Refused(SigningFailed)
        case Some(sig) =>
          if randIndex >= |info.prList| || randIndex >= |info.proofList| then IndexPanic(randIndex)
          else Signed(Vote(randIndex, lib.marshalPubRand(info.prList[randIndex]), info.proofList[randIndex], sig))
  }

  /** `generateFinalitySignature` with both index defects corrected: height 0 is
      rejected, the index is `height - 1` without wrap-around, and it must lie
      inside every list it selects from. The secret, the public randomness and the
      proof are all taken at that one index. All three lengths are checked before
      signing, so on a short `PRList` or `ProofList` the index is reported out of
      range even where the source would first report a signing error. */
  function GenerateFinalitySignature<K, S, P>(
    lib: Lib<S, P>, sign: (K, S, seq<byte>) -> Option<seq<byte>>, sk: K,
    info: RandListInfo<S, P>, height: uint64, blockHash: seq<byte>): (r: Result<Vote, SignError>)
    ensures r.Success? <==>
      1 <= height && height as int - 1 < |info.srList| && height as int - 1 < |info.prList| &&
      height as int - 1 < |info.proofList| &&
      sign(sk, info.srList[height as int - 1], FinalityMessage(height, blockHash)).Some?
    ensures r.Success? ==>
      var i := r.value.index;
      i + 1 == height as int &&
      r.value.pubRand == lib.marshalPubRand(info.prList[i]) && r.value.proof == info.proofList[i] &&
      sign(sk, info.srList[i], FinalityMessage(height, blockHash)) == Some(r.value.signature)
    ensures r == Failure(HeightBelowOne(height)) <==> height == 0
    ensures r.Failure? && r.error.IndexOutOfRange? <==>
      1 <= height &&
      (height as int - 1 >= |info.srList| || height as int - 1 >= |info.prList| ||
       height as int - 1 >= |info.proofList|)
    ensures r == Failure(SigningFailed) <==>
      1 <= height && height as int - 1 < Min(|info.srList|, Min(|info.prList|, |info.proofList|)) &&
      sign(sk, info.srList[height as int - 1], FinalityMessage(height, blockHash)).None?
    ensures r.Failure? && r.error.IndexOutOfRange? ==>
      r.error == IndexOutOfRange(height, height as int - 1, Min(|info.srList|, Min(|info.prList|, |info.proofList|)))
  {
    var msg := FinalityMessage(height, blockHash);
    if height < 1 then Failure(HeightBelowOne(height))
    else
      var randIndex := height as int - 1;
      var available := Min(|info.srList|, Min(|info.prList|, |info.proofList|));
      if randIndex >= available then Failure(IndexOutOfRange(height, randIndex, available))
      else
        match sign(sk, info.srList[randIndex], msg)
        case None => Failure(SigningFailed)
        case Some(sig) => Success(Vote(randIndex, lib.marshalPubRand(info.prList[randIndex]), info.proofList[randIndex], sig))
  }

  /** On the lists one generation produces (no list shorter than the secret list)
      and at heights up to 2^63, the corrected rule and the source agree outcome for
      outcome, and the source never panics. */
  lemma CorrectedAgreesWithSource<K, S, P>(
    lib: Lib<S, P>, sign: (K, S, seq<byte>) -> Option<seq<byte>>, sk: K,
    info: RandListInfo<S, P>, height: uint64, blockHash: seq<byte>)
    requires |info.prList| >= |info.srList| && |info.proofList| >= |info.srList|
    requires height as int <= TWO_TO_63
    ensures match GenerateFinalitySignatureAsWritten(lib, sign, sk, info, height, blockHash)
      case Signed(rv) => GenerateFinalitySignature(lib, sign, sk, info, height, blockHash) == Success(rv)
      case Refused(e) => GenerateFinalitySignature(lib, sign, sk, info, height, blockHash) == Failure(e)
      case IndexPanic(_) => false
  {
    if height >= 1 {
      CastsAreInverse(0, height - 1);
      assert Int64FromUint64(height - 1) as int == height as int - 1;
    }
  }

  /** Finding: height 2^63 + 1 makes `int(blockHeight - 1)` equal to -2^63, which
      passes the bound check and panics when `SRList` is indexed; the corrected rule
      rejects the height. */
  lemma HugeHeightPanicsAsWritten<K, S, P>(
    lib: Lib<S, P>, sign: (K, S, seq<byte>) -> Option<seq<byte>>, sk: K,
    info: RandListInfo<S, P>, blockHash: seq<byte>)
    requires |info.srList| <= TWO_TO_63
    ensures GenerateFinalitySignatureAsWritten(lib, sign, sk, info, 0x8000_0000_0000_0001, blockHash)
            == IndexPanic(-0x8000_0000_0000_0000)
    ensures GenerateFinalitySignature(lib, sign, sk, info, 0x8000_0000_0000_0001, blockHash).Failure?
    ensures GenerateFinalitySignature(lib, sign, sk, info, 0x8000_0000_0000_0001, blockHash).error.IndexOutOfRange?
  {
  }

  /** Finding: `ConvertFromSerializable` accepts one secret with no public randomness
      and no proofs; height 1 then passes the `SRList` bound check, and after signing
      the source indexes the empty `PRList` and panics. The corrected rule reports the
      index as out of range. */
  lemma ShortListsPanicAsWritten<K, S, P>(
    lib: Lib<S, P>, sign: (K, S, seq<byte>) -> Option<seq<byte>>, sk: K, blockHash: seq<byte>)
    requires !lib.scalarOverflows([1])
    requires sign(sk, lib.scalarFromBytes([1]), FinalityMessage(1, blockHash)).Some?
    ensures Decode(lib, SerializableRandListInfo(["01"], [], "", [])).Success?
    ensures var info := Decode(lib, SerializableRandListInfo(["01"], [], "", [])).value;
      GenerateFinalitySignatureAsWritten(lib, sign, sk, info, 1, blockHash) == IndexPanic(0) &&
      GenerateFinalitySignature(lib, sign, sk, info, 1, blockHash) == Failure(IndexOutOfRange(1, 0, 0))
  {
    DecodeAcceptsUnequalLengths(lib);
    CastsAreInverse(0, 0);
  }

  /** The index depends on the height alone, so two successful votes from one list
      at one index are for one height, and their messages differ exactly when their
      block hashes do. */
  lemma OneHeightPerIndex<K, S, P>(
    lib: Lib<S, P>, sign: (K, S, seq<byte>) -> Option<seq<byte>>, sk: K,
    info: RandListInfo<S, P>, h1: uint64, b1: seq<byte>, h2: uint64, b2: seq<byte>)
    requires GenerateFinalitySignature(lib, sign, sk, info, h1, b1).Success?
    requires GenerateFinalitySignature(lib, sign, sk, info, h2, b2).Success?
    requires GenerateFinalitySignature(lib, sign, sk, info, h1, b1).value.index ==
             GenerateFinalitySignature(lib, sign, sk, info, h2, b2).value.index
    ensures h1 == h2
    ensures FinalityMessage(h1, b1) == FinalityMessage(h2, b2) <==> b1 == b2
  {
    if FinalityMessage(h1, b1) == FinalityMessage(h2, b2) {
      MessageInjective(h1, b1, h2, b2);
    }
  }

  /** The `proof` object of the contract message: the proof's fields with
      `uint64(Total)` and `uint64(Index)`. */
  datatype FinalitySigMsg = FinalitySigMsg(
    height: uint64, pubRand: seq<byte>, proof: ProofData, blockHash: seq<byte>, signature: seq<byte>)

  /** "Block height %d signed using randomness index %d": both tools emit it only
      once the vote is confirmed on chain. */
  datatype Summary = Summary(height: uint64, index: nat)

  /** The contract message of a vote and the randomness index it used. */
  datatype Submission = Submission(msg: FinalitySigMsg, index: nat)

  /** The part of `submitFinalitySignature` before the transaction is sent: the
      vote on block `appHash` at `height` and the contract message carrying it.
      It is built on the corrected index rule of `GenerateFinalitySignature`, which
      checks all three list lengths before signing and names the shortest one.
      Where the source panics (a height above 2^63, or `PRList`/`ProofList`
      shorter than the index) it returns `IndexOutOfRange`. On short
      `PRList`/`ProofList` it also returns `IndexOutOfRange` where the source
      returns its signing error or names `len(SRList)`. Agreement with the source
      is proved on the domain of `CorrectedAgreesWithSource`. */
  function SubmitFinalitySignature<K, S, P>(
    lib: Lib<S, P>, sign: (K, S, seq<byte>) -> Option<seq<byte>>, sk: K,
    info: RandListInfo<S, P>, height: uint64, appHash: seq<byte>): (r: Result<Submission, SignError>)
    ensures r.Failure? <==> GenerateFinalitySignature(lib, sign, sk, info, height, appHash).Failure?
    ensures r.Failure? ==> r.error == GenerateFinalitySignature(lib, sign, sk, info, height, appHash).error
    ensures r.Success? ==>
      var i := height as int - 1;
      0 <= i < |info.prList| && i < |info.proofList| && i < |info.srList| &&
      r.value.index == i &&
      r.value.msg.height == height && r.value.msg.blockHash == appHash &&
      r.value.msg.pubRand == lib.marshalPubRand(info.prList[i]) &&
      ProofToProto(r.value.msg.proof) == info.proofList[i] &&
      sign(sk, info.srList[i], FinalityMessage(height, appHash)) == Some(r.value.msg.signature)
  {
    match GenerateFinalitySignature(lib, sign, sk, info, height, appHash)
    case Failure(e) => Failure(e)
    case Success(rv) =>
      CastsAreInverse(rv.proof.total, 0);
      CastsAreInverse(rv.proof.index, 0);
      Success(Submission(
        FinalitySigMsg(height, rv.pubRand, ProofToData(rv.proof), appHash, rv.signature),
        rv.index))
  }
}
