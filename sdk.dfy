/** The `darkfi_sdk` values the entrypoints see: contract calls, the error
    codes of `ContractResult`, the metadata record, and the codecs for the
    call-list payload and the metadata output. */
module Sdk {

  import opened Options
  import opened Serial

  /** Identity of a deployed contract; an opaque field element here. */
  datatype ContractId = ContractId(repr: Repr32)

  /** One call of a transaction: the contract it targets and its data; the
      first byte of the data selects the contract function. */
  datatype ContractCall = ContractCall(contractId: ContractId, data: seq<u8>)

  /** The error codes the entrypoints return. `Malformed` is what a failed
      `deserialize` turns into and `UnknownFunction` what a failed
      `ContractFunction::try_from` turns into; `Internal` is the code the
      entrypoints return themselves for a bad call index. */
  datatype ContractError = Internal | Malformed | UnknownFunction

  /** `ContractResult`, i.e. `Result<(), ContractError>`. */
  datatype ContractResult = Ok | Err(error: ContractError)

  /** How an entrypoint ends: it returns a `ContractResult`, or it panics
      (an out-of-bounds slice index), which aborts the module. */
  datatype Exit = Returned(result: ContractResult) | Panicked

  /** `pallas::Base` and `PublicKey`: opaque 32-byte values. */
  datatype FieldElement = FieldElement(repr: Repr32)
  datatype PublicKey = PublicKey(repr: Repr32)

  /** One entry of the zk public inputs, `(String, Vec<pallas::Base>)`: the
      circuit's name (its UTF-8 bytes) and the circuit's public inputs. */
  datatype ZkInput = ZkInput(circuit: seq<u8>, publicInputs: seq<FieldElement>)

  /** What the host must verify before it trusts a call. */
  datatype Metadata = Metadata(zkPublicInputs: seq<ZkInput>, signaturePubkeys: seq<PublicKey>)

  // ---- Contract calls ----

  function EncodeCall(c: ContractCall): seq<u8>
  {
    c.contractId.repr + EncodeBytes(c.data)
  }

  function DecodeCall(bs: seq<u8>): Option<(ContractCall, seq<u8>)>
  {
    match DecodeRepr32(bs)
    case None => None
    case Some((id, rest)) =>
      match DecodeBytes(rest)
      case None => None
      case Some((data, rest')) => Some((ContractCall(ContractId(id), data), rest'))
  }

  predicate CallValid(c: ContractCall)
  {
    BytesValid(c.data)
  }

  lemma CallCodec()
    ensures Inverse(EncodeCall, DecodeCall, CallValid)
    ensures Canonical(EncodeCall, DecodeCall, CallValid)
  {
    forall c, rest | CallValid(c) ensures DecodeCall(EncodeCall(c) + rest) == Some((c, rest)) {
      var tail := EncodeBytes(c.data) + rest;
      assert EncodeCall(c) + rest == c.contractId.repr + tail;
      assert (c.contractId.repr + tail)[..32] == c.contractId.repr;
      assert (c.contractId.repr + tail)[32..] == tail;
      BytesRoundTrip(c.data, rest);
    }
    forall bs | DecodeCall(bs).Some?
      ensures CallValid(DecodeCall(bs).value.0)
      ensures bs == EncodeCall(DecodeCall(bs).value.0) + DecodeCall(bs).value.1
    {
      var (id, mid) := DecodeRepr32(bs).value;
      BytesCanonical(mid);
      assert bs == id + mid;
    }
  }

  // ---- The call-list payload `(call_idx: u32, calls: Vec<ContractCall>)` ----

  predicate PayloadValid(calls: seq<ContractCall>)
  {
    |calls| < U32Range && forall i :: 0 <= i < |calls| ==> CallValid(calls[i])
  }

  function EncodePayload(callIdx: u32, calls: seq<ContractCall>): seq<u8>
  {
    EncodeU32(callIdx) + EncodeSeq(calls, EncodeCall)
  }

  /** `deserialize`: the whole input must be one payload, with no bytes
      left over. */
  function DecodePayload(bs: seq<u8>): (r: Option<(u32, seq<ContractCall>)>)
    ensures r.Some? ==> |r.value.1| < U32Range
  {
    match DecodeU32(bs)
    case None => None
    case Some((callIdx, rest)) =>
      match DecodeSeq(rest, DecodeCall)
      case None => None
      case Some((calls, rest')) => if rest' == [] then Some((callIdx, calls)) else None
  }

  lemma PayloadRoundTrip(callIdx: u32, calls: seq<ContractCall>)
    requires PayloadValid(calls)
    ensures DecodePayload(EncodePayload(callIdx, calls)) == Some((callIdx, calls))
  {
    CallCodec();
    var body := EncodeSeq(calls, EncodeCall);
    U32RoundTrip(callIdx, body);
    SeqRoundTrip(calls, [], EncodeCall, DecodeCall, CallValid);
    assert body + [] == body;
  }

  lemma PayloadCanonical(bs: seq<u8>)
    ensures DecodePayload(bs).Some? ==>
      PayloadValid(DecodePayload(bs).value.1) &&
      bs == EncodePayload(DecodePayload(bs).value.0, DecodePayload(bs).value.1)
  {
    if DecodePayload(bs).Some? {
      var (callIdx, mid) := DecodeU32(bs).value;
      U32Canonical(bs);
      CallCodec();
      SeqCanonical(mid, EncodeCall, DecodeCall, CallValid);
      var (calls, rest) := DecodeSeq(mid, DecodeCall).value;
      assert mid == EncodeSeq(calls, EncodeCall) + [];
    }
  }

  // ---- The metadata output ----

  function EncodeField(x: FieldElement): seq<u8>
  {
    x.repr
  }

  function DecodeField(bs: seq<u8>): Option<(FieldElement, seq<u8>)>
  {
    match DecodeRepr32(bs)
    case None => None
    case Some((r, rest)) => Some((FieldElement(r), rest))
  }

  predicate FieldValid(x: FieldElement)
  {
    true
  }

  function EncodePublicKey(k: PublicKey): seq<u8>
  {
    k.repr
  }

  function DecodePublicKey(bs: seq<u8>): Option<(PublicKey, seq<u8>)>
  {
    match DecodeRepr32(bs)
    case None => None
    case Some((r, rest)) => Some((PublicKey(r), rest))
  }

  predicate PublicKeyValid(k: PublicKey)
  {
    true
  }

  lemma FieldCodec()
    ensures Inverse(EncodeField, DecodeField, FieldValid)
    ensures Canonical(EncodeField, DecodeField, FieldValid)
  {
    forall x, rest ensures DecodeField(EncodeField(x) + rest) == Some((x, rest)) {
      assert (x.repr + rest)[..32] == x.repr && (x.repr + rest)[32..] == rest;
    }
    forall bs | DecodeField(bs).Some?
      ensures bs == EncodeField(DecodeField(bs).value.0) + DecodeField(bs).value.1
    {
      assert bs == bs[..32] + bs[32..];
    }
  }

  lemma PublicKeyCodec()
    ensures Inverse(EncodePublicKey, DecodePublicKey, PublicKeyValid)
    ensures Canonical(EncodePublicKey, DecodePublicKey, PublicKeyValid)
  {
    forall k, rest ensures DecodePublicKey(EncodePublicKey(k) + rest) == Some((k, rest)) {
      assert (k.repr + rest)[..32] == k.repr && (k.repr + rest)[32..] == rest;
    }
    forall bs | DecodePublicKey(bs).Some?
      ensures bs == EncodePublicKey(DecodePublicKey(bs).value.0) + DecodePublicKey(bs).value.1
    {
      assert bs == bs[..32] + bs[32..];
    }
  }

  function EncodeZkInput(z: ZkInput): seq<u8>
  {
    EncodeBytes(z.circuit) + EncodeSeq(z.publicInputs, EncodeField)
  }

  function DecodeZkInput(bs: seq<u8>): Option<(ZkInput, seq<u8>)>
  {
    match DecodeBytes(bs)
    case None => None
    case Some((circuit, rest)) =>
      match DecodeSeq(rest, DecodeField)
      case None => None
      case Some((inputs, rest')) => Some((ZkInput(circuit, inputs), rest'))
  }

  predicate ZkInputValid(z: ZkInput)
  {
    BytesValid(z.circuit) && |z.publicInputs| < U32Range
  }

  lemma ZkInputCodec()
    ensures Inverse(EncodeZkInput, DecodeZkInput, ZkInputValid)
    ensures Canonical(EncodeZkInput, DecodeZkInput, ZkInputValid)
  {
    FieldCodec();
    forall z, rest | ZkInputValid(z) ensures DecodeZkInput(EncodeZkInput(z) + rest) == Some((z, rest)) {
      var tail := EncodeSeq(z.publicInputs, EncodeField) + rest;
      assert EncodeZkInput(z) + rest == EncodeBytes(z.circuit) + tail;
      BytesRoundTrip(z.circuit, tail);
      SeqRoundTrip(z.publicInputs, rest, EncodeField, DecodeField, FieldValid);
    }
    forall bs | DecodeZkInput(bs).Some?
      ensures ZkInputValid(DecodeZkInput(bs).value.0)
      ensures bs == EncodeZkInput(DecodeZkInput(bs).value.0) + DecodeZkInput(bs).value.1
    {
      var (circuit, mid) := DecodeBytes(bs).value;
      BytesCanonical(bs);
      SeqCanonical(mid, EncodeField, DecodeField, FieldValid);
    }
  }

  predicate MetadataValid(m: Metadata)
  {
    && |m.zkPublicInputs| < U32Range
    && (forall i :: 0 <= i < |m.zkPublicInputs| ==> ZkInputValid(m.zkPublicInputs[i]))
    && |m.signaturePubkeys| < U32Range
  }

  /** The zk public inputs first, then the signature public keys. */
  function EncodeMetadata(m: Metadata): seq<u8>
  {
    EncodeSeq(m.zkPublicInputs, EncodeZkInput) + EncodeSeq(m.signaturePubkeys, EncodePublicKey)
  }

  /** How the host reads the metadata output back. */
  function DecodeMetadata(bs: seq<u8>): Option<Metadata>
  {
    match DecodeSeq(bs, DecodeZkInput)
    case None => None
    case Some((zk, rest)) =>
      match DecodeSeq(rest, DecodePublicKey)
      case None => None
      case Some((keys, rest')) => if rest' == [] then Some(Metadata(zk, keys)) else None
  }

  lemma MetadataRoundTrip(m: Metadata)
    requires MetadataValid(m)
    ensures DecodeMetadata(EncodeMetadata(m)) == Some(m)
  {
    ZkInputCodec();
    PublicKeyCodec();
    var keys := EncodeSeq(m.signaturePubkeys, EncodePublicKey);
    SeqRoundTrip(m.zkPublicInputs, keys, EncodeZkInput, DecodeZkInput, ZkInputValid);
    SeqRoundTrip(m.signaturePubkeys, [], EncodePublicKey, DecodePublicKey, PublicKeyValid);
    assert keys + [] == keys;
  }

  lemma MetadataCanonical(bs: seq<u8>)
    ensures DecodeMetadata(bs).Some? ==>
      MetadataValid(DecodeMetadata(bs).value) && bs == EncodeMetadata(DecodeMetadata(bs).value)
  {
    if DecodeMetadata(bs).Some? {
      ZkInputCodec();
      PublicKeyCodec();
      SeqCanonical(bs, EncodeZkInput, DecodeZkInput, ZkInputValid);
      var (zk, mid) := DecodeSeq(bs, DecodeZkInput).value;
      SeqCanonical(mid, EncodePublicKey, DecodePublicKey, PublicKeyValid);
      var (keys, rest) := DecodeSeq(mid, DecodePublicKey).value;
      assert mid == EncodeSeq(keys, EncodePublicKey) + [];
    }
  }
}
