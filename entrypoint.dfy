/** The four entrypoints the host invokes for one contract call: `init` at
    deployment, `metadata` before verification, `exec` to produce the state
    update, and `apply` to commit it.

    `get_metadata` and `process_instruction` share a prologue: decode the
    payload `(call_idx, calls)`, reject an index that is out of range, read the
    first byte of the selected call's data and turn it into a
    `ContractFunction`. `SelectCall` states what that prologue arrives at,
    `MetadataPhase` and `ExecPhase` what each phase then emits, and the two
    methods are proved to act on the host's return buffer as those functions
    say. */
module Entrypoint {

  import opened Options
  import opened Serial
  import opened Sdk
  import opened Contract
  import opened Host

  /** The outcome of the shared prologue: the selected call and its
      function, or the way the entrypoint ends without output. */
  datatype Selection = Selected(call: ContractCall, selected: ContractFunction) | Rejected(exit: Exit)

  /** What a phase does after its prologue: write `output` to the return
      buffer and return, or stop with `exit` and write nothing. */
  datatype Phase = Emit(output: seq<u8>) | Stop(exit: Exit)

  /** `init_contract`: nothing to prepare; it succeeds whatever the contract
      id and payload. */
  function InitContract(cid: ContractId, ix: seq<u8>): (r: ContractResult)
    ensures r == Ok
  {
    Ok
  }

  /** The prologue. The index check compares against `calls.len() as u32`;
      a decoded list is shorter than 2^32, so this is the true length, and a
      call is read only once its index is known to be in range. */
  function SelectCall(ix: seq<u8>): (s: Selection)
    ensures s == Rejected(Returned(Err(Malformed))) <==> DecodePayload(ix).None?
    ensures var d := DecodePayload(ix);
      d.Some? && d.value.0 as int >= |d.value.1| ==> s == Rejected(Returned(Err(Internal)))
    ensures var d := DecodePayload(ix);
      d.Some? && d.value.0 as int < |d.value.1| && d.value.1[d.value.0].data == [] ==> s == Rejected(Panicked)
    ensures var d := DecodePayload(ix);
      d.Some? && d.value.0 as int < |d.value.1| && d.value.1[d.value.0].data != [] ==>
        (s.Selected? <==> d.value.1[d.value.0].data[0] == HelloTag) &&
        (s.Rejected? ==> s.exit == Returned(Err(UnknownFunction)))
    ensures s.Selected? ==>
      DecodePayload(ix).Some? &&
      var (callIdx, calls) := DecodePayload(ix).value;
      callIdx as int < |calls| && s.call == calls[callIdx] &&
      s.call.data != [] && s.call.data[0] == ToByte(s.selected)
  {
    match DecodePayload(ix)
    case None => Rejected(Returned(Err(Malformed)))
    case Some((callIdx, calls)) =>
      if callIdx >= AsU32(|calls|) then Rejected(Returned(Err(Internal)))
      else
        var call := calls[callIdx];
        if |call.data| == 0 then Rejected(Panicked)
        else
          match TryFromByte(call.data[0])
          case None => Rejected(Returned(Err(UnknownFunction)))
          case Some(f) => Selected(call, f)
  }

  /** `get_metadata`'s result: for `Hello`, an empty list of zk public
      inputs followed by an empty list of signature public keys, which the
      host reads back as exactly that. */
  function MetadataPhase(ix: seq<u8>): (p: Phase)
    ensures p.Emit? <==> SelectCall(ix).Selected?
    ensures p.Stop? ==> p.exit == SelectCall(ix).exit
    ensures p.Emit? ==> p.output == EncodeLen(0) + EncodeLen(0)
    ensures p.Emit? ==> DecodeMetadata(p.output) == Some(Metadata([], []))
  {
    match SelectCall(ix)
    case Rejected(e) => Stop(e)
    case Selected(_, Hello) =>
      MetadataRoundTrip(Metadata([], []));
      Emit(EncodeMetadata(Metadata([], [])))
  }

  /** `process_instruction`'s result: for `Hello`, the state update is the one
      byte `Hello as u8`, whatever the call's payload and the other calls. */
  function ExecPhase(ix: seq<u8>): (p: Phase)
    ensures p.Emit? <==> SelectCall(ix).Selected?
    ensures p.Stop? ==> p.exit == SelectCall(ix).exit
    ensures p.Emit? ==> p.output == [ToByte(Hello)] && TryFromByte(p.output[0]) == Some(Hello)
  {
    match SelectCall(ix)
    case Rejected(e) => Stop(e)
    case Selected(_, Hello) => Emit([ToByte(Hello)])
  }

  /** How an entrypoint that runs `p` leaves the return buffer, starting from
      `before`: a stopped phase returns its exit and writes nothing; an
      emitting phase writes its output, unless the buffer refuses the write,
      whose error it then returns. */
  ghost predicate Commits(p: Phase, before: Option<seq<u8>>, r: Exit, after: Option<seq<u8>>)
  {
    match p
    case Stop(e) => r == e && after == before
    case Emit(out) =>
      if before == None then r == Returned(Ok) && after == Some(out)
      else r == Returned(Err(Internal)) && after == before
  }

  /** `get_metadata`. */
  method GetMetadata(ret: ReturnBuffer, cid: ContractId, ix: seq<u8>) returns (r: Exit)
    modifies ret
    ensures Commits(MetadataPhase(ix), old(ret.data), r, ret.data)
  {
    var decoded := DecodePayload(ix);
    if decoded == None {
      return Returned(Err(Malformed));
    }
    var (callIdx, calls) := decoded.value;
    if callIdx >= AsU32(|calls|) {
      return Returned(Err(Internal));
    }
    var data := calls[callIdx].data;
    if |data| == 0 {
      return Panicked;
    }
    var f := TryFromByte(data[0]);
    if f == None {
      return Returned(Err(UnknownFunction));
    }
    match f.value {
      case Hello =>
        var zkPublicInputs: seq<ZkInput> := [];
        var signaturePubkeys: seq<PublicKey> := [];
        var metadata: seq<u8> := [];
        metadata := metadata + EncodeSeq(zkPublicInputs, EncodeZkInput);
        metadata := metadata + EncodeSeq(signaturePubkeys, EncodePublicKey);
        assert metadata == EncodeMetadata(Metadata(zkPublicInputs, signaturePubkeys));
        assert MetadataPhase(ix) == Emit(metadata);
        var written := ret.Set(metadata);
        if written.Err? {
          return Returned(written);
        }
        r := Returned(Ok);
    }
  }

  /** `process_instruction`. */
  method ProcessInstruction(ret: ReturnBuffer, cid: ContractId, ix: seq<u8>) returns (r: Exit)
    modifies ret
    ensures Commits(ExecPhase(ix), old(ret.data), r, ret.data)
  {
    var decoded := DecodePayload(ix);
    if decoded == None {
      return Returned(Err(Malformed));
    }
    var (callIdx, calls) := decoded.value;
    if callIdx >= AsU32(|calls|) {
      return Returned(Err(Internal));
    }
    var data := calls[callIdx].data;
    if |data| == 0 {
      return Panicked;
    }
    var f := TryFromByte(data[0]);
    if f == None {
      return Returned(Err(UnknownFunction));
    }
    match f.value {
      case Hello =>
        var updateData: seq<u8> := [];
        updateData := updateData + [ToByte(Hello)];
        assert ExecPhase(ix) == Emit(updateData);
        var written := ret.Set(updateData);
        if written.Err? {
          return Returned(written);
        }
        r := Returned(Ok);
    }
  }

  /** `process_update`: reads the tag byte of the update and, for `Hello`,
      succeeds without changing anything. An empty update panics on the
      index; an unknown tag is refused as in the other phases. */
  function ProcessUpdate(cid: ContractId, updateData: seq<u8>): (r: Exit)
    ensures r == Panicked <==> updateData == []
    ensures r == Returned(Ok) <==> updateData != [] && updateData[0] == ToByte(Hello)
    ensures r.Returned? && r.result.Err? ==> r.result.error == UnknownFunction
  {
    if |updateData| == 0 then Panicked
    else
      match TryFromByte(updateData[0])
      case None => Returned(Err(UnknownFunction))
      case Some(Hello) => Returned(Ok)
  }

  // ---- Properties of the protocol ----

  /** Phase coupling: `apply` accepts every state update `exec` emits. */
  lemma ApplyAcceptsExec(cid: ContractId, ix: seq<u8>)
    ensures ExecPhase(ix).Emit? ==> ProcessUpdate(cid, ExecPhase(ix).output) == Returned(Ok)
  {
  }

  /** The two phases agree: `metadata` emits exactly when `exec` does, and
      otherwise both stop in the same way. */
  lemma PhasesAgree(ix: seq<u8>)
    ensures MetadataPhase(ix).Emit? <==> ExecPhase(ix).Emit?
    ensures MetadataPhase(ix).Stop? ==> MetadataPhase(ix).exit == ExecPhase(ix).exit
  {
  }

  /** An index at or past the end of the call list is refused with
      `Internal` by both phases, which write nothing. */
  lemma OutOfRangeRejected(callIdx: u32, calls: seq<ContractCall>)
    requires PayloadValid(calls) && callIdx as int >= |calls|
    ensures MetadataPhase(EncodePayload(callIdx, calls)) == Stop(Returned(Err(Internal)))
    ensures ExecPhase(EncodePayload(callIdx, calls)) == Stop(Returned(Err(Internal)))
  {
    PayloadRoundTrip(callIdx, calls);
  }

  /** A selected call whose first byte is no `ContractFunction` is refused
      with `UnknownFunction` by both phases, and an update with that tag is
      refused by `apply` in the same way. */
  lemma UnknownSelectorRejected(cid: ContractId, callIdx: u32, calls: seq<ContractCall>, rest: seq<u8>)
    requires PayloadValid(calls) && callIdx as int < |calls|
    requires calls[callIdx].data != [] && TryFromByte(calls[callIdx].data[0]) == None
    ensures MetadataPhase(EncodePayload(callIdx, calls)) == Stop(Returned(Err(UnknownFunction)))
    ensures ExecPhase(EncodePayload(callIdx, calls)) == Stop(Returned(Err(UnknownFunction)))
    ensures ProcessUpdate(cid, [calls[callIdx].data[0]] + rest) == Returned(Err(UnknownFunction))
  {
    PayloadRoundTrip(callIdx, calls);
  }

  /** A selected call with empty data makes both phases panic on the index
      of its first byte. */
  lemma EmptyCallDataPanics(callIdx: u32, calls: seq<ContractCall>)
    requires PayloadValid(calls) && callIdx as int < |calls| && calls[callIdx].data == []
    ensures MetadataPhase(EncodePayload(callIdx, calls)) == Stop(Panicked)
    ensures ExecPhase(EncodePayload(callIdx, calls)) == Stop(Panicked)
  {
    PayloadRoundTrip(callIdx, calls);
  }

  /** A `Hello` call runs through all three phases: `metadata` emits the two
      empty lists, `exec` emits the update `[Hello as u8]`, and `apply`
      accepts that update. Neither output depends on the call's payload or
      on the other calls. */
  lemma HelloCallAccepted(cid: ContractId, callIdx: u32, calls: seq<ContractCall>)
    requires PayloadValid(calls) && callIdx as int < |calls|
    requires calls[callIdx].data != [] && calls[callIdx].data[0] == HelloTag
    ensures MetadataPhase(EncodePayload(callIdx, calls)) == Emit(EncodeMetadata(Metadata([], [])))
    ensures ExecPhase(EncodePayload(callIdx, calls)) == Emit([HelloTag])
    ensures ProcessUpdate(cid, [HelloTag]) == Returned(Ok)
  {
    PayloadRoundTrip(callIdx, calls);
  }

  /** The host's sequence for one `Hello` call, on the imperative
      entrypoints: `get_metadata` and `process_instruction` each run on a
      fresh return buffer, and `process_update` is given the bytes that
      `process_instruction` left in its buffer. */
  method RunHelloCall(cid: ContractId, callIdx: u32, calls: seq<ContractCall>)
    returns (metadataExit: Exit, metadata: Option<seq<u8>>, execExit: Exit, update: Option<seq<u8>>, applyExit: Exit)
    requires PayloadValid(calls) && callIdx as int < |calls|
    requires calls[callIdx].data != [] && calls[callIdx].data[0] == HelloTag
    ensures metadataExit == Returned(Ok) && metadata.Some?
    ensures DecodeMetadata(metadata.value) == Some(Metadata([], []))
    ensures execExit == Returned(Ok) && update == Some([HelloTag])
    ensures applyExit == Returned(Ok)
  {
    var ix := EncodePayload(callIdx, calls);
    HelloCallAccepted(cid, callIdx, calls);
    var metadataBuffer := new ReturnBuffer();
    metadataExit := GetMetadata(metadataBuffer, cid, ix);
    metadata := metadataBuffer.data;
    var execBuffer := new ReturnBuffer();
    execExit := ProcessInstruction(execBuffer, cid, ix);
    update := execBuffer.data;
    applyExit := ProcessUpdate(cid, update.value);
  }
}
