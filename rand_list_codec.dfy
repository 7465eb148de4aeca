/** The randomness-list codec of the crypto-ops tools (`ConvertToSerializable`,
    `ConvertFromSerializable`): a `RandListInfo` (secret randomness, public
    randomness, Merkle commitment and per-index proofs) is moved across a
    process boundary with every byte string hex-encoded.

    The scalar and point types of the signature library are the type parameters
    `S` (`eots.PrivateRand`) and `P` (`bbn.SchnorrPubRand`); the library calls the
    codec relies on are the fields of a `Lib` value. */
module RandListCodec {
  import opened Basics
  import Hex

  /** A Merkle inclusion proof: the fields of `merkle.Proof` and `tmproto.Proof`. */
  datatype Proof = Proof(total: int64, index: int64, leafHash: seq<byte>, aunts: seq<seq<byte>>)

  /** One element of `ProofListData`: the same fields, `Total` and `Index` as `uint64`. */
  datatype ProofData = ProofData(total: uint64, index: uint64, leafHash: seq<byte>, aunts: seq<seq<byte>>)

  /** `datagen.RandListInfo`. */
  datatype RandListInfo<S, P> =
    RandListInfo(srList: seq<S>, prList: seq<P>, commitment: seq<byte>, proofList: seq<Proof>)

  /** `SerializableRandListInfo`. */
  datatype SerializableRandListInfo = SerializableRandListInfo(
    srListHex: seq<string>,
    prListHex: seq<string>,
    commitmentHex: string,
    proofListData: seq<ProofData>)

  /** The foreign library calls, as uninterpreted functions. */
  datatype Lib<!S, !P> = Lib(
    scalarBytes: S -> seq<byte>,           // PrivateRand.Bytes()
    scalarOverflows: seq<byte> -> bool,    // the overflow flag SetByteSlice returns
    scalarFromBytes: seq<byte> -> S,       // the scalar SetByteSlice stores
    marshalPubRand: P -> seq<byte>,        // SchnorrPubRand.MustMarshal()
    pubRandUnmarshals: seq<byte> -> bool,  // SchnorrPubRand.Unmarshal returns no error
    pubRandFromBytes: seq<byte> -> P,      // the point Unmarshal stores
    proofValid: Proof -> bool)             // merkle.ProofFromProto returns no error

  /** The assumption under which the codec is lossless: the library reads back
      what it writes. */
  ghost predicate DecodersInvertEncoders<S(!new), P(!new)>(lib: Lib<S, P>) {
    (forall s: S :: !lib.scalarOverflows(lib.scalarBytes(s)) && lib.scalarFromBytes(lib.scalarBytes(s)) == s) &&
    (forall p: P :: lib.pubRandUnmarshals(lib.marshalPubRand(p)) && lib.pubRandFromBytes(lib.marshalPubRand(p)) == p)
  }

  /** Why one list item failed to decode. */
  datatype Fault = InvalidHex | ScalarOverflow | UnmarshalFailed | ProofFromProtoFailed

  /** The first failing item of one list: its index and its fault. */
  datatype ItemError = ItemError(index: nat, fault: Fault)

  /** The errors of `ConvertFromSerializable`, one per `return nil, err` of the source. */
  datatype DecodeError =
    | CommitmentHexError
    | SecretRandError(item: ItemError)
    | PubRandError(item: ItemError)
    | ProofError(item: ItemError)

  // ---------------------------------------------------------------------------
  // Encoding

  /** A proof as `ConvertToSerializable` writes it: `uint64(Total)`, `uint64(Index)`. */
  function ProofToData(p: Proof): ProofData {
    ProofData(Uint64FromInt64(p.total), Uint64FromInt64(p.index), p.leafHash, p.aunts)
  }

  /** The `tmproto.Proof` that `ConvertFromSerializable` builds: `int64(Total)`, `int64(Index)`. */
  function ProofToProto(d: ProofData): Proof {
    Proof(Int64FromUint64(d.total), Int64FromUint64(d.index), d.leafHash, d.aunts)
  }

  function SecretHex<S, P>(lib: Lib<S, P>, s: S): string {
    Hex.Encode(lib.scalarBytes(s))
  }

  function PubRandHex<S, P>(lib: Lib<S, P>, p: P): string {
    Hex.Encode(lib.marshalPubRand(p))
  }

  /** The serialized form, element by element. */
  function Encode<S, P>(lib: Lib<S, P>, info: RandListInfo<S, P>): SerializableRandListInfo {
    SerializableRandListInfo(
      seq(|info.srList|, i requires 0 <= i < |info.srList| => SecretHex(lib, info.srList[i])),
      seq(|info.prList|, i requires 0 <= i < |info.prList| => PubRandHex(lib, info.prList[i])),
      Hex.Encode(info.commitment),
      seq(|info.proofList|, i requires 0 <= i < |info.proofList| => ProofToData(info.proofList[i])))
  }

  /** `ConvertToSerializable`: allocates the three lists at the source lengths and
      fills them index by index. */
  method ConvertToSerializable<S, P>(lib: Lib<S, P>, info: RandListInfo<S, P>)
    returns (ser: SerializableRandListInfo)
    ensures |ser.srListHex| == |info.srList| && |ser.prListHex| == |info.prList|
    ensures |ser.proofListData| == |info.proofList|
    ensures forall i :: 0 <= i < |info.srList| ==> ser.srListHex[i] == Hex.Encode(lib.scalarBytes(info.srList[i]))
    ensures forall i :: 0 <= i < |info.prList| ==> ser.prListHex[i] == Hex.Encode(lib.marshalPubRand(info.prList[i]))
    ensures ser.commitmentHex == Hex.Encode(info.commitment)
    ensures forall i :: 0 <= i < |info.proofList| ==> ser.proofListData[i] == ProofToData(info.proofList[i])
    ensures ser == Encode(lib, info)
  {
    var srListHex: seq<string> := seq(|info.srList|, _ => "");
    var prListHex: seq<string> := seq(|info.prList|, _ => "");
    var proofListData := seq(|info.proofList|, _ => ProofData(0, 0, [], []));
    var commitmentHex := Hex.Encode(info.commitment);

    var i := 0;
    while i < |info.srList|
      invariant 0 <= i <= |info.srList| && |srListHex| == |info.srList|
      invariant forall j :: 0 <= j < i ==> srListHex[j] == SecretHex(lib, info.srList[j])
    {
      srListHex := srListHex[i := SecretHex(lib, info.srList[i])];
      i := i + 1;
    }

    i := 0;
    while i < |info.prList|
      invariant 0 <= i <= |info.prList| && |prListHex| == |info.prList|
      invariant forall j :: 0 <= j < i ==> prListHex[j] == PubRandHex(lib, info.prList[j])
    {
      prListHex := prListHex[i := PubRandHex(lib, info.prList[i])];
      i := i + 1;
    }

    i := 0;
    while i < |info.proofList|
      invariant 0 <= i <= |info.proofList| && |proofListData| == |info.proofList|
      invariant forall j :: 0 <= j < i ==> proofListData[j] == ProofToData(info.proofList[j])
    {
      proofListData := proofListData[i := ProofToData(info.proofList[i])];
      i := i + 1;
    }

    ser := SerializableRandListInfo(srListHex, prListHex, commitmentHex, proofListData);
  }

  // ---------------------------------------------------------------------------
  // Decoding

  /** One secret: hex-decode, then `SetByteSlice`, which may overflow. */
  function DecodeSecret<S, P>(lib: Lib<S, P>, h: string): Result<S, Fault> {
    match Hex.Decode(h)
    case None => Failure(InvalidHex)
    case Some(b) => if lib.scalarOverflows(b) then Failure(ScalarOverflow) else Success(lib.scalarFromBytes(b))
  }

  /** One public randomness value: hex-decode, then `Unmarshal`. */
  function DecodePubRand<S, P>(lib: Lib<S, P>, h: string): Result<P, Fault> {
    match Hex.Decode(h)
    case None => Failure(InvalidHex)
    case Some(b) => if lib.pubRandUnmarshals(b) then Success(lib.pubRandFromBytes(b)) else Failure(UnmarshalFailed)
  }

  /** One proof: the cast to `tmproto.Proof`, then `merkle.ProofFromProto`. */
  function DecodeProof<S, P>(lib: Lib<S, P>, d: ProofData): Result<Proof, Fault> {
    var p := ProofToProto(d);
    if lib.proofValid(p) then Success(p) else Failure(ProofFromProtoFailed)
  }

  function SecretItems<S, P>(lib: Lib<S, P>, hs: seq<string>): seq<Result<S, Fault>> {
    seq(|hs|, j requires 0 <= j < |hs| => DecodeSecret(lib, hs[j]))
  }

  function PubRandItems<S, P>(lib: Lib<S, P>, hs: seq<string>): seq<Result<P, Fault>> {
    seq(|hs|, j requires 0 <= j < |hs| => DecodePubRand(lib, hs[j]))
  }

  function ProofItems<S, P>(lib: Lib<S, P>, ds: seq<ProofData>): seq<Result<Proof, Fault>> {
    seq(|ds|, j requires 0 <= j < |ds| => DecodeProof(lib, ds[j]))
  }

  ghost predicate AllDecode<T>(items: seq<Result<T, Fault>>) {
    forall j :: 0 <= j < |items| ==> items[j].Success?
  }

  /** `e` names the first item that fails, and how it fails. */
  ghost predicate FirstFault<T>(items: seq<Result<T, Fault>>, e: ItemError) {
    e.index < |items| && items[e.index] == Failure(e.fault) &&
    forall j :: 0 <= j < e.index ==> items[j].Success?
  }

  /** Walks a list of per-item results in index order and stops at the first failure,
      as each decoding loop of `ConvertFromSerializable` does. */
  function Collect<T>(items: seq<Result<T, Fault>>): (r: Result<seq<T>, ItemError>)
    ensures r.Success? <==> AllDecode(items)
    ensures r.Success? ==> |r.value| == |items| && forall j :: 0 <= j < |items| ==> items[j] == Success(r.value[j])
    ensures r.Failure? ==> FirstFault(items, r.error)
    decreases |items|
  {
    if items == [] then Success([])
    else
      var last := |items| - 1;
      assert forall j :: 0 <= j < last ==> items[..last][j] == items[j];
      match Collect(items[..last])
      case Failure(e) => Failure(e)
      case Success(prefix) =>
        match items[last]
        case Failure(f) => Failure(ItemError(last, f))
        case Success(v) => Success(prefix + [v])
  }

  /** At most one item error is the first. */
  lemma FirstFaultUnique<T>(items: seq<Result<T, Fault>>, e1: ItemError, e2: ItemError)
    requires FirstFault(items, e1) && FirstFault(items, e2)
    ensures e1 == e2
  {
  }

  lemma CollectStopsAt<T>(items: seq<Result<T, Fault>>, i: nat, f: Fault)
    requires i < |items| && items[i] == Failure(f)
    requires forall j :: 0 <= j < i ==> items[j].Success?
    ensures Collect(items) == Failure(ItemError(i, f))
  {
    FirstFaultUnique(items, Collect(items).error, ItemError(i, f));
  }

  /** The in-memory list, or the first error in the order commitment, secrets,
      public randomness, proofs. */
  function Decode<S, P>(lib: Lib<S, P>, ser: SerializableRandListInfo): Result<RandListInfo<S, P>, DecodeError> {
    match Hex.Decode(ser.commitmentHex)
    case None => Failure(CommitmentHexError)
    case Some(commitment) =>
      match Collect(SecretItems(lib, ser.srListHex))
      case Failure(e) => Failure(SecretRandError(e))
      case Success(srList) =>
        match Collect(PubRandItems(lib, ser.prListHex))
        case Failure(e) => Failure(PubRandError(e))
        case Success(prList) =>
          match Collect(ProofItems(lib, ser.proofListData))
          case Failure(e) => Failure(ProofError(e))
          case Success(proofList) => Success(RandListInfo(srList, prList, commitment, proofList))
  }

  /** The secret loop of `ConvertFromSerializable`: hex-decode and `SetByteSlice`
      each entry in index order, stopping at the first failure. */
  method DecodeSecretList<S, P>(lib: Lib<S, P>, hs: seq<string>) returns (r: Result<seq<S>, ItemError>)
    ensures r == Collect(SecretItems(lib, hs))
  {
    var items := SecretItems(lib, hs);
    var srList: seq<S> := [];
    var i := 0;
    while i < |hs|
      invariant 0 <= i <= |hs| && |srList| == i
      invariant forall j :: 0 <= j < i ==> items[j] == Success(srList[j])
    {
      var srBytes := Hex.Decode(hs[i]);
      if srBytes.None? {
        CollectStopsAt(items, i, InvalidHex);
        return Failure(ItemError(i, InvalidHex));
      }
      if lib.scalarOverflows(srBytes.value) {
        CollectStopsAt(items, i, ScalarOverflow);
        return Failure(ItemError(i, ScalarOverflow));
      }
      srList := srList + [lib.scalarFromBytes(srBytes.value)];
      i := i + 1;
    }
    assert AllDecode(items);
    assert Collect(items).value == srList;
    return Success(srList);
  }

  /** The public randomness loop: hex-decode and `Unmarshal` each entry in index
      order, stopping at the first failure. */
  method DecodePubRandList<S, P>(lib: Lib<S, P>, hs: seq<string>) returns (r: Result<seq<P>, ItemError>)
    ensures r == Collect(PubRandItems(lib, hs))
  {
    var items := PubRandItems(lib, hs);
    var prList: seq<P> := [];
    var i := 0;
    while i < |hs|
      invariant 0 <= i <= |hs| && |prList| == i
      invariant forall j :: 0 <= j < i ==> items[j] == Success(prList[j])
    {
      var prBytes := Hex.Decode(hs[i]);
      if prBytes.None? {
        CollectStopsAt(items, i, InvalidHex);
        return Failure(ItemError(i, InvalidHex));
      }
      if !lib.pubRandUnmarshals(prBytes.value) {
        CollectStopsAt(items, i, UnmarshalFailed);
        return Failure(ItemError(i, UnmarshalFailed));
      }
      prList := prList + [lib.pubRandFromBytes(prBytes.value)];
      i := i + 1;
    }
    assert AllDecode(items);
    assert Collect(items).value == prList;
    return Success(prList);
  }

  /** The proof loop: cast `Total` and `Index` back to `int64` and check each proof
      with `merkle.ProofFromProto`, stopping at the first failure. */
  method DecodeProofList<S, P>(lib: Lib<S, P>, ds: seq<ProofData>) returns (r: Result<seq<Proof>, ItemError>)
    ensures r == Collect(ProofItems(lib, ds))
  {
    var items := ProofItems(lib, ds);
    var proofList: seq<Proof> := [];
    var i := 0;
    while i < |ds|
      invariant 0 <= i <= |ds| && |proofList| == i
      invariant forall j :: 0 <= j < i ==> items[j] == Success(proofList[j])
    {
      var proofData := ds[i];
      var protoProof := Proof(Int64FromUint64(proofData.total), Int64FromUint64(proofData.index),
                              proofData.leafHash, proofData.aunts);
      if !lib.proofValid(protoProof) {
        CollectStopsAt(items, i, ProofFromProtoFailed);
        return Failure(ItemError(i, ProofFromProtoFailed));
      }
      proofList := proofList + [protoProof];
      i := i + 1;
    }
    assert AllDecode(items);
    assert Collect(items).value == proofList;
    return Success(proofList);
  }

  /** `ConvertFromSerializable`: decodes the commitment, then each list in index
      order, returning at the first error with nothing decoded so far. */
  method ConvertFromSerializable<S, P>(lib: Lib<S, P>, ser: SerializableRandListInfo)
    returns (r: Result<RandListInfo<S, P>, DecodeError>)
    ensures r == Decode(lib, ser)
  {
    var commitment := Hex.Decode(ser.commitmentHex);
    if commitment.None? {
      return Failure(CommitmentHexError);
    }
    var srList := DecodeSecretList(lib, ser.srListHex);
    if srList.Failure? {
      return Failure(SecretRandError(srList.error));
    }
    var prList := DecodePubRandList(lib, ser.prListHex);
    if prList.Failure? {
      return Failure(PubRandError(prList.error));
    }
    var proofList := DecodeProofList(lib, ser.proofListData);
    if proofList.Failure? {
      return Failure(ProofError(proofList.error));
    }
    return Success(RandListInfo(srList.value, prList.value, commitment.value, proofList.value));
  }

  // ---------------------------------------------------------------------------
  // Properties

  /** Decoding inverts encoding: every list element, the commitment and every proof
      field comes back, given that the library reads back what it writes and the
      proofs are ones `merkle.ProofFromProto` accepts. */
  lemma DecodeInvertsEncode<S(!new), P(!new)>(lib: Lib<S, P>, info: RandListInfo<S, P>)
    requires DecodersInvertEncoders(lib)
    requires forall k :: 0 <= k < |info.proofList| ==> lib.proofValid(info.proofList[k])
    ensures Decode(lib, Encode(lib, info)) == Success(info)
  {
    var ser := Encode(lib, info);
    Hex.DecodeEncode(info.commitment);
    var srItems := SecretItems(lib, ser.srListHex);
    forall j | 0 <= j < |info.srList|
      ensures srItems[j] == Success(info.srList[j])
    {
      Hex.DecodeEncode(lib.scalarBytes(info.srList[j]));
    }
    assert Collect(srItems).value == info.srList;
    var prItems := PubRandItems(lib, ser.prListHex);
    forall j | 0 <= j < |info.prList|
      ensures prItems[j] == Success(info.prList[j])
    {
      Hex.DecodeEncode(lib.marshalPubRand(info.prList[j]));
    }
    assert Collect(prItems).value == info.prList;
    var proofItems := ProofItems(lib, ser.proofListData);
    forall j | 0 <= j < |info.proofList|
      ensures proofItems[j] == Success(info.proofList[j])
    {
      var p := info.proofList[j];
      CastsAreInverse(p.total, 0);
      CastsAreInverse(p.index, 0);
    }
    assert Collect(proofItems).value == info.proofList;
  }

  /** Decoding succeeds exactly when the commitment and every item of every list
      decode; each decoded list then takes the length of its own serialized list,
      element by element, and nothing ties the three lengths together. */
  lemma DecodeSucceeds<S, P>(lib: Lib<S, P>, ser: SerializableRandListInfo)
    ensures Decode(lib, ser).Success? <==>
      Hex.Decode(ser.commitmentHex).Some? && AllDecode(SecretItems(lib, ser.srListHex)) &&
      AllDecode(PubRandItems(lib, ser.prListHex)) && AllDecode(ProofItems(lib, ser.proofListData))
    ensures Decode(lib, ser).Success? ==>
      var info := Decode(lib, ser).value;
      Hex.Decode(ser.commitmentHex) == Some(info.commitment) &&
      |info.srList| == |ser.srListHex| && |info.prList| == |ser.prListHex| &&
      |info.proofList| == |ser.proofListData| &&
      (forall i :: 0 <= i < |info.srList| ==> DecodeSecret(lib, ser.srListHex[i]) == Success(info.srList[i])) &&
      (forall i :: 0 <= i < |info.prList| ==> DecodePubRand(lib, ser.prListHex[i]) == Success(info.prList[i])) &&
      (forall i :: 0 <= i < |info.proofList| ==> DecodeProof(lib, ser.proofListData[i]) == Success(info.proofList[i]))
  {
  }

  /** The error names the first failing item: the commitment is checked first, then
      the secrets in index order, then the public randomness, then the proofs. */
  lemma DecodeFailsAtFirstBadItem<S, P>(lib: Lib<S, P>, ser: SerializableRandListInfo, e: DecodeError)
    ensures Decode(lib, ser) == Failure(e) <==>
      match e
      case CommitmentHexError =>
        Hex.Decode(ser.commitmentHex).None?
      case SecretRandError(item) =>
        Hex.Decode(ser.commitmentHex).Some? &&
        FirstFault(SecretItems(lib, ser.srListHex), item)
      case PubRandError(item) =>
        Hex.Decode(ser.commitmentHex).Some? && AllDecode(SecretItems(lib, ser.srListHex)) &&
        FirstFault(PubRandItems(lib, ser.prListHex), item)
      case ProofError(item) =>
        Hex.Decode(ser.commitmentHex).Some? && AllDecode(SecretItems(lib, ser.srListHex)) &&
        AllDecode(PubRandItems(lib, ser.prListHex)) &&
        FirstFault(ProofItems(lib, ser.proofListData), item)
  {
    var sr := Collect(SecretItems(lib, ser.srListHex));
    var pr := Collect(PubRandItems(lib, ser.prListHex));
    var pf := Collect(ProofItems(lib, ser.proofListData));
    match e
    case CommitmentHexError =>
    case SecretRandError(item) =>
      if sr.Failure? && FirstFault(SecretItems(lib, ser.srListHex), item) {
        FirstFaultUnique(SecretItems(lib, ser.srListHex), sr.error, item);
      }
    case PubRandError(item) =>
      if pr.Failure? && FirstFault(PubRandItems(lib, ser.prListHex), item) {
        FirstFaultUnique(PubRandItems(lib, ser.prListHex), pr.error, item);
      }
    case ProofError(item) =>
      if pf.Failure? && FirstFault(ProofItems(lib, ser.proofListData), item) {
        FirstFaultUnique(ProofItems(lib, ser.proofListData), pf.error, item);
      }
  }

  /** Nothing checks that the three lists have one length: a batch with one secret,
      no public randomness and no proofs decodes. */
  lemma DecodeAcceptsUnequalLengths<S, P>(lib: Lib<S, P>)
    requires !lib.scalarOverflows([1])
    ensures Decode(lib, SerializableRandListInfo(["01"], [], "", [])) ==
            Success(RandListInfo([lib.scalarFromBytes([1])], [], [], []))
  {
    Hex.DecodeEncode([1]);
    assert Hex.Encode([1]) == "01";
    var items := SecretItems(lib, ["01"]);
    assert items == [Success(lib.scalarFromBytes([1]))];
    assert Collect(items).value == [lib.scalarFromBytes([1])];
  }

  /** The proof fields survive a decode and re-encode bit for bit, whatever
      `uint64` values were serialized: the two casts are inverse bijections. */
  lemma ReencodeKeepsProofData<S, P>(lib: Lib<S, P>, ser: SerializableRandListInfo)
    requires Decode(lib, ser).Success?
    ensures Encode(lib, Decode(lib, ser).value).proofListData == ser.proofListData
  {
    var info := Decode(lib, ser).value;
    DecodeSucceeds(lib, ser);
    forall i | 0 <= i < |ser.proofListData|
      ensures ProofToData(info.proofList[i]) == ser.proofListData[i]
    {
      var d := ser.proofListData[i];
      CastsAreInverse(0, d.total);
      CastsAreInverse(0, d.index);
    }
  }
}
