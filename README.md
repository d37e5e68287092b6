# DarkFi contract entrypoint: a Dafny model

This project models the entrypoint layer of a DarkFi smart-contract module
(`src/entrypoint.rs`). The host virtual machine invokes this layer once per
phase of a contract call:

- `init`: deployment; `init_contract` prepares nothing and succeeds.
- `metadata`: before the host checks proofs and signatures; `get_metadata`
  writes the zk public inputs and signature public keys that the host must verify.
- `exec`: `process_instruction` writes the state update.
- `apply`: after verification, `process_update` commits that state update.

Both `get_metadata` and `process_instruction` start the same way:

1. Decode the payload `(call_idx: u32, calls: Vec<ContractCall>)`.
2. If `call_idx >= calls.len() as u32`, return `ContractError::Internal`.
3. Read the first byte of `calls[call_idx].data`.
4. Turn that byte into a `ContractFunction`.

The enumeration has one variant, `Hello`. For `Hello`:

- the metadata phase writes an empty zk-public-input list followed by an
  empty signature-pubkey list;
- the exec phase writes the one-byte update `Hello as u8`;
- the apply phase reads that tag byte and succeeds without doing anything.

Module layout:

- `options.dfy` (`Options`): the `Option` type that the decoders return.
- `serial.dfy` (`Serial`): a length-prefixed stand-in for the `darkfi_serial` format.
  - Bytes, `u32` and the `as u32` cast.
  - Generic vector encoding and decoding.
  - The two codec laws, proved generically: decoding an encoding gives the value back
    (`Inverse`), and anything that decodes is the encoding of its value (`Canonical`).
- `sdk.dfy` (`Sdk`): the `darkfi_sdk` values.
  - `ContractId`, `ContractCall`, `ContractError`, `ContractResult`.
  - `Exit`, which is a `ContractResult` or a panic.
  - The metadata record.
  - The codecs for the call-list payload and for the metadata. Each has a round-trip
    lemma and a canonicity lemma.
- `contract.dfy` (`Contract`): `ContractFunction` with `try_from` and `as u8`.
  - The selector byte `HelloTag` is declared without a value, so every result holds for
    any byte.
- `host.dfy` (`Host`): the host's return buffer behind `set_return_data`.
  - It is a class with one field.
  - The first write succeeds. Any later write is refused and leaves the first in place.
- `entrypoint.dfy` (`Entrypoint`): the four entrypoints and the properties of the protocol.
  - The shared prologue (`SelectCall`) and what each phase emits (`MetadataPhase`,
    `ExecPhase`) are specification functions.
  - `get_metadata` and `process_instruction` are imperative methods (`GetMetadata`,
    `ProcessInstruction`). They build their output locally and then write it to a
    `ReturnBuffer`. Each is proved against its phase function.
    - A stopped phase returns its exit code and leaves the buffer unchanged.
    - An emitting phase writes its output exactly once.
  - `init_contract` and `process_update` are pure functions.

How the code behaves at the points where a reader might expect otherwise:

- A bad `call_idx` gives `ContractError::Internal` (`src/entrypoint.rs:53`, `:79`); there
  is no dedicated index error, and the model has none either.
- The code indexes `data[0]` without checking that the data is non-empty, so empty call
  data panics (`src/entrypoint.rs:56`, `:82`), and so does an empty update (`:100`). The
  model makes each of these panics an explicit `Panicked` exit.
- The apply phase makes no persistent mutation for `Hello`: it returns `Ok(())`
  (`src/entrypoint.rs:101`), and so does the model.
- The index check compares against `calls.len() as u32`, which the model writes as
  `AsU32(|calls|)`. For a list of 2^32 or more calls this truncation could refuse a valid
  index, but it can never let an invalid one through. A decoded list is always shorter than
  2^32, so the comparison is with the true length (`SelectCall`).

## Model

| member | source | states |
|---|---|---|
| Entrypoint.InitContract | src/entrypoint.rs:42-44 | `init_contract` succeeds for every contract id and payload |
| Entrypoint.SelectCall | src/entrypoint.rs:50-56 | the shared prologue: an undecodable payload gives `Malformed` (and only then); an index at or past the end of the decoded list gives `Internal`; an in-range call with empty data panics; an in-range call is selected exactly when its first byte is the `Hello` selector, else `UnknownFunction`; a selected call is `calls[call_idx]` with `call_idx` in range and its first byte is its function's selector |
| Entrypoint.MetadataPhase | src/entrypoint.rs:56-67 | the metadata phase emits exactly when the prologue selects a call, otherwise stops with the prologue's exit; what it emits is the empty zk-input list followed by the empty pubkey list, and it decodes back to `Metadata([], [])` |
| Entrypoint.ExecPhase | src/entrypoint.rs:82-90 | the exec phase emits exactly when the prologue selects a call, otherwise stops with the prologue's exit; the update it emits is the single byte `Hello as u8`, which `try_from` reads back as `Hello` |
| Entrypoint.GetMetadata | src/entrypoint.rs:49-70 | `get_metadata` acts on the return buffer as `MetadataPhase` says: on a stop it returns that exit and writes nothing; on emit it writes the metadata once and returns `Ok`, or returns the buffer's refusal |
| Entrypoint.ProcessInstruction | src/entrypoint.rs:75-93 | `process_instruction` acts on the return buffer as `ExecPhase` says, in the same way |
| Entrypoint.ProcessUpdate | src/entrypoint.rs:99-103 | `process_update` panics exactly on an empty update, succeeds exactly when the first byte is the `Hello` selector, and otherwise fails with `UnknownFunction` |
| Entrypoint.ApplyAcceptsExec | src/entrypoint.rs:88-101 | phase coupling: `process_update` returns `Ok` on every update that `process_instruction` emits |
| Entrypoint.PhasesAgree | src/entrypoint.rs:50-56 | the metadata and exec phases accept exactly the same payloads and reject the rest with the same exit |
| Entrypoint.OutOfRangeRejected | src/entrypoint.rs:76-80 | for any encodable call list and `call_idx >= len`, both phases stop with `Internal` and write nothing |
| Entrypoint.UnknownSelectorRejected | src/entrypoint.rs:82 | a selected call whose first byte is no `ContractFunction` makes both phases stop with `UnknownFunction`, and `process_update` refuses an update with that tag with the same error |
| Entrypoint.EmptyCallDataPanics | src/entrypoint.rs:56 | a selected call with empty data makes both phases panic |
| Entrypoint.HelloCallAccepted | src/entrypoint.rs:57-66 | for any encodable call list whose selected call starts with the `Hello` selector, whatever its payload and the other calls: metadata emits the two empty lists, exec emits `[Hello as u8]`, and apply accepts it |
| Entrypoint.RunHelloCall | src/entrypoint.rs:57-101 | on fresh return buffers, a `Hello` call makes `get_metadata` return `Ok` with metadata that decodes to two empty lists, `process_instruction` return `Ok` with the update `[Hello as u8]`, and `process_update` accept the update left in the buffer |
| Contract.TryFromByte | src/entrypoint.rs:56 | `ContractFunction::try_from` recognises a byte exactly when it is the `Hello` selector, and the function it returns has that byte as its `as u8` |
| Contract.SelectorRoundTrip | src/entrypoint.rs:88 | `try_from(f as u8)` gives back `f` |
| Host.ReturnBuffer.Set | src/entrypoint.rs:66 | `set_return_data` stores the bytes when the buffer is empty; otherwise it refuses with an error and keeps the first write |
| Host.ReturnBuffer.constructor | src/entrypoint.rs:89 | a fresh return buffer holds nothing |
| Sdk.DecodePayload | src/entrypoint.rs:50 | every decoded call list has fewer than 2^32 calls |
| Sdk.PayloadRoundTrip | src/entrypoint.rs:76 | decoding the encoding of `(call_idx, calls)` gives back exactly `(call_idx, calls)` |
| Sdk.PayloadCanonical | src/entrypoint.rs:50 | a payload decodes only if it is exactly the encoding of what it decodes to, so trailing bytes are refused |
| Sdk.CallCodec | src/entrypoint.rs:50 | the `ContractCall` codec satisfies both codec laws |
| Sdk.MetadataRoundTrip | src/entrypoint.rs:62-64 | decoding an encoded metadata record gives back the record: zk inputs first, then public keys |
| Sdk.MetadataCanonical | src/entrypoint.rs:63-64 | any bytes that decode as metadata are exactly that metadata's encoding |
| Sdk.ZkInputCodec | src/entrypoint.rs:58 | the `(String, Vec<pallas::Base>)` codec satisfies both codec laws |
| Sdk.FieldCodec | src/entrypoint.rs:58 | the `pallas::Base` codec satisfies both codec laws |
| Sdk.PublicKeyCodec | src/entrypoint.rs:59 | the `PublicKey` codec satisfies both codec laws |
| Serial.U32RoundTrip | src/entrypoint.rs:50 | the four-byte `u32` decodes back to its value and leaves what follows untouched |
| Serial.U32Canonical | src/entrypoint.rs:50 | any four bytes decode to the `u32` whose encoding they are |
| Serial.AsU32 | src/entrypoint.rs:51 | `n as u32` never exceeds `n` and equals `n` below 2^32 |
| Serial.EncodeLen | src/entrypoint.rs:63 | a length below 2^32 is written as a prefix that decodes back to that length |
| Serial.DecodeItems | src/entrypoint.rs:50 | decoding `n` items yields exactly `n` items |
| Serial.DecodeSeq | src/entrypoint.rs:50 | a decoded vector has fewer than 2^32 items |
| Serial.ItemsRoundTrip | src/entrypoint.rs:63-64 | decoding a sequence of item encodings gives back the items, by induction on the items |
| Serial.ItemsCanonical | src/entrypoint.rs:50 | decoded items are valid and their encodings are exactly the bytes consumed, by induction on the count |
| Serial.SeqRoundTrip | src/entrypoint.rs:63-64 | a length-prefixed vector decodes back to itself for any element codec satisfying the inverse law |
| Serial.SeqCanonical | src/entrypoint.rs:50 | a length-prefixed vector decodes only from its own encoding |
| Serial.BytesRoundTrip | src/entrypoint.rs:50 | a length-prefixed byte string decodes back to itself |
| Serial.BytesCanonical | src/entrypoint.rs:50 | a length-prefixed byte string decodes only from its own encoding |

## Left out

- The `define_contract!` macro and the wasm ABI glue (`src/entrypoint.rs:31-36`). These
  are represented only by the four operations.
- `msg!` logging (`src/entrypoint.rs:52`, `:78`, `:84`). It is a host output with no
  effect on results.
- The exact `darkfi_serial` byte layout. Vector lengths there are VarInts. The model
  writes every length as a four-byte prefix and every opaque element as 32 bytes. The
  proved properties are round-trip, canonicity and the order of the two metadata lists.
  They are proved for the stand-in layout only. The real format has them only if its
  VarInt decoder refuses non-minimal encodings and its element decoders are canonical;
  neither is modelled. The only exact bytes the model claims are the one-byte state
  update.
- Serial.EncodeLen: lengths of 2^32 or more do not fit the four-byte stand-in prefix, so
  they wrap. The codec laws are stated only for shorter vectors.
- Validity checks on `pallas::Base`, `PublicKey` and `ContractId` decoding, such as
  canonical field-element encodings. These cryptographic types are opaque 32-byte values
  in the model. Circuit names are their UTF-8 bytes, and the model's decoder accepts any
  bytes as a name, where Rust's `String` decoding refuses invalid UTF-8; this concerns
  only the host's reading of the metadata.
- Encoding into a `Vec` (`encode`, `write_u8`) cannot fail, so the `?` on those calls has
  no failure branch in the model.
- Host.ReturnBuffer.Set: the host's error code for a refused write is not modelled; it is
  represented as `Internal`. The host's other reasons to refuse a write, such as the
  phase in which it is called, are left out.
- The concrete error codes that `darkfi_sdk` gives a failed `deserialize` and a failed
  `try_from`. The model names them `Malformed` and `UnknownFunction`.
- The `ContractFunction` definition and its selector value are in the crate root, which is
  not part of this model. The selector is the unspecified constant `HelloTag`. The model
  assumes that the crate root's `try_from` recognises exactly `Hello as u8` as `Hello`:
  `ToByte` and `TryFromByte` share that one constant, and the phase coupling
  (`ApplyAcceptsExec`, `RunHelloCall`) rests on that assumption.
- Database effects: these entrypoints have none. The unused `cid` argument is kept as an
  opaque parameter.
