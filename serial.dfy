/** A length-prefixed stand-in for the `darkfi_serial` wire format: the
    `Encodable::encode` and `deserialize` calls of the entrypoints go through
    these functions.

    A decoder reads a value from the FRONT of a byte string and returns the
    value with the bytes it did not consume. Every codec here comes with its
    two laws: `Inverse` (decoding an encoding gives the value back and leaves
    whatever followed it untouched) and `Canonical` (whatever decodes is the
    encoding of what it decodes to, so no two byte strings decode to the same
    value with the same remainder). */
module Serial {

  import opened Options

  newtype u8 = x: int | 0 <= x < 0x100
  newtype u32 = x: int | 0 <= x < 0x1_0000_0000

  const U32Range: int := 0x1_0000_0000

  /** Four bytes, least significant first, as `darkfi_serial` writes a `u32`. */
  function EncodeU32(x: u32): (r: seq<u8>)
    ensures |r| == 4
  {
    var q1 := x as int / 0x100;
    var q2 := q1 / 0x100;
    var q3 := q2 / 0x100;
    [(x as int % 0x100) as u8, (q1 % 0x100) as u8, (q2 % 0x100) as u8, (q3 % 0x100) as u8]
  }

  function DecodeU32(bs: seq<u8>): (r: Option<(u32, seq<u8>)>)
    ensures r.Some? <==> |bs| >= 4
    ensures r.Some? ==> r.value.1 == bs[4..]
  {
    if |bs| < 4 then None
    else
      var v := bs[0] as int + 0x100 * (bs[1] as int + 0x100 * (bs[2] as int + 0x100 * bs[3] as int));
      Some((v as u32, bs[4..]))
  }

  lemma U32RoundTrip(x: u32, rest: seq<u8>)
    ensures DecodeU32(EncodeU32(x) + rest) == Some((x, rest))
  {
    var n := x as int;
    var q1 := n / 0x100;
    var q2 := q1 / 0x100;
    var q3 := q2 / 0x100;
    assert q3 < 0x100;
    var e := EncodeU32(x) + rest;
    assert e[0] as int == n % 0x100 && e[1] as int == q1 % 0x100;
    assert e[2] as int == q2 % 0x100 && e[3] as int == q3;
    assert e[4..] == rest;
  }

  lemma U32Canonical(bs: seq<u8>)
    ensures DecodeU32(bs).Some? ==> bs == EncodeU32(DecodeU32(bs).value.0) + DecodeU32(bs).value.1
  {
    if |bs| >= 4 {
      var b0, b1, b2, b3 := bs[0] as int, bs[1] as int, bs[2] as int, bs[3] as int;
      var v := b0 + 0x100 * (b1 + 0x100 * (b2 + 0x100 * b3));
      assert v / 0x100 == b1 + 0x100 * (b2 + 0x100 * b3) && v % 0x100 == b0;
      assert (v / 0x100) / 0x100 == b2 + 0x100 * b3;
      assert ((v / 0x100) / 0x100) / 0x100 == b3;
      var e := EncodeU32(v as u32);
      assert e == bs[..4];
      assert bs == bs[..4] + bs[4..];
    }
  }

  /** Rust's `n as u32` on a length: keeps the low 32 bits. */
  function AsU32(n: nat): (r: u32)
    ensures r as int <= n
    ensures n < U32Range ==> r as int == n
  {
    (n % U32Range) as u32
  }

  /** The length prefix of a vector. Lengths of 2^32 and more are beyond the
      stand-in's four-byte prefix and wrap; the codec laws below are stated
      only for shorter vectors. */
  function EncodeLen(n: nat): (r: seq<u8>)
    ensures n < U32Range ==> DecodeU32(r) == Some((n as u32, []))
  {
    U32RoundTrip(AsU32(n), []);
    assert EncodeU32(AsU32(n)) + [] == EncodeU32(AsU32(n));
    EncodeU32(AsU32(n))
  }

  ghost predicate Inverse<T(!new)>(enc: T -> seq<u8>, dec: seq<u8> -> Option<(T, seq<u8>)>, valid: T -> bool)
  {
    forall x, rest :: valid(x) ==> dec(enc(x) + rest) == Some((x, rest))
  }

  ghost predicate Canonical<T>(enc: T -> seq<u8>, dec: seq<u8> -> Option<(T, seq<u8>)>, valid: T -> bool)
  {
    forall bs :: dec(bs).Some? ==> valid(dec(bs).value.0) && bs == enc(dec(bs).value.0) + dec(bs).value.1
  }

  function EncodeItems<T>(xs: seq<T>, enc: T -> seq<u8>): seq<u8>
  {
    if xs == [] then [] else enc(xs[0]) + EncodeItems(xs[1..], enc)
  }

  /** Reads exactly `n` items one after the other. */
  function DecodeItems<T>(n: nat, bs: seq<u8>, dec: seq<u8> -> Option<(T, seq<u8>)>): (r: Option<(seq<T>, seq<u8>)>)
    ensures r.Some? ==> |r.value.0| == n
  {
    if n == 0 then Some(([], bs))
    else
      match dec(bs)
      case None => None
      case Some((x, rest)) =>
        match DecodeItems(n - 1, rest, dec)
        case None => None
        case Some((xs, rest')) => Some(([x] + xs, rest'))
  }

  /** A `Vec<T>`: its length, then its items in order. */
  function EncodeSeq<T>(xs: seq<T>, enc: T -> seq<u8>): seq<u8>
  {
    EncodeLen(|xs|) + EncodeItems(xs, enc)
  }

  function DecodeSeq<T>(bs: seq<u8>, dec: seq<u8> -> Option<(T, seq<u8>)>): (r: Option<(seq<T>, seq<u8>)>)
    ensures r.Some? ==> |r.value.0| < U32Range
  {
    match DecodeU32(bs)
    case None => None
    case Some((n, rest)) => DecodeItems(n as nat, rest, dec)
  }

  ghost predicate AllValid<T>(xs: seq<T>, valid: T -> bool)
  {
    forall i :: 0 <= i < |xs| ==> valid(xs[i])
  }

  lemma {:induction false} ItemsRoundTrip<T(!new)>(xs: seq<T>, rest: seq<u8>, enc: T -> seq<u8>,
                                             dec: seq<u8> -> Option<(T, seq<u8>)>, valid: T -> bool)
    requires Inverse(enc, dec, valid) && AllValid(xs, valid)
    ensures DecodeItems(|xs|, EncodeItems(xs, enc) + rest, dec) == Some((xs, rest))
  {
    if xs != [] {
      var tail := EncodeItems(xs[1..], enc) + rest;
      assert EncodeItems(xs, enc) + rest == enc(xs[0]) + tail;
      assert valid(xs[0]);
      assert dec(enc(xs[0]) + tail) == Some((xs[0], tail));
      ItemsRoundTrip(xs[1..], rest, enc, dec, valid);
      assert |xs[1..]| == |xs| - 1;
      assert DecodeItems(|xs| - 1, tail, dec) == Some((xs[1..], rest));
      assert DecodeItems(|xs|, enc(xs[0]) + tail, dec) == Some(([xs[0]] + xs[1..], rest));
      assert [xs[0]] + xs[1..] == xs;
    } else {
      assert EncodeItems(xs, enc) + rest == rest;
    }
  }

  lemma {:induction false} ItemsCanonical<T>(n: nat, bs: seq<u8>, enc: T -> seq<u8>,
                                             dec: seq<u8> -> Option<(T, seq<u8>)>, valid: T -> bool)
    requires Canonical(enc, dec, valid)
    ensures DecodeItems(n, bs, dec).Some? ==>
      var (xs, rest) := DecodeItems(n, bs, dec).value;
      AllValid(xs, valid) && bs == EncodeItems(xs, enc) + rest
  {
    if n > 0 && DecodeItems(n, bs, dec).Some? {
      var (x, mid) := dec(bs).value;
      var (xs, rest) := DecodeItems(n - 1, mid, dec).value;
      ItemsCanonical(n - 1, mid, enc, dec, valid);
      var all := [x] + xs;
      assert all[0] == x && all[1..] == xs;
      assert bs == enc(x) + mid;
    }
  }

  lemma SeqRoundTrip<T(!new)>(xs: seq<T>, rest: seq<u8>, enc: T -> seq<u8>,
                        dec: seq<u8> -> Option<(T, seq<u8>)>, valid: T -> bool)
    requires Inverse(enc, dec, valid) && AllValid(xs, valid) && |xs| < U32Range
    ensures DecodeSeq(EncodeSeq(xs, enc) + rest, dec) == Some((xs, rest))
  {
    var items := EncodeItems(xs, enc) + rest;
    U32RoundTrip(|xs| as u32, items);
    assert EncodeSeq(xs, enc) + rest == EncodeU32(|xs| as u32) + items;
    ItemsRoundTrip(xs, rest, enc, dec, valid);
  }

  lemma SeqCanonical<T>(bs: seq<u8>, enc: T -> seq<u8>,
                        dec: seq<u8> -> Option<(T, seq<u8>)>, valid: T -> bool)
    requires Canonical(enc, dec, valid)
    ensures DecodeSeq(bs, dec).Some? ==>
      var (xs, rest) := DecodeSeq(bs, dec).value;
      AllValid(xs, valid) && |xs| < U32Range && bs == EncodeSeq(xs, enc) + rest
  {
    if DecodeSeq(bs, dec).Some? {
      var (n, mid) := DecodeU32(bs).value;
      U32Canonical(bs);
      assert bs == EncodeU32(n) + mid;
      ItemsCanonical(n as nat, mid, enc, dec, valid);
      var (xs, rest) := DecodeItems(n as nat, mid, dec).value;
      assert mid == EncodeItems(xs, enc) + rest;
      assert |xs| == n as int;
      assert EncodeLen(|xs|) == EncodeU32(n);
      assert bs == EncodeSeq(xs, enc) + rest;
    }
  }

  /** A `Vec<u8>` on its own, or the UTF-8 bytes of a `String`. */
  function EncodeBytes(b: seq<u8>): seq<u8>
  {
    EncodeLen(|b|) + b
  }

  function DecodeBytes(bs: seq<u8>): (r: Option<(seq<u8>, seq<u8>)>)
  {
    match DecodeU32(bs)
    case None => None
    case Some((n, rest)) => if |rest| < n as int then None else Some((rest[..n], rest[n..]))
  }

  predicate BytesValid(b: seq<u8>)
  {
    |b| < U32Range
  }

  lemma BytesRoundTrip(b: seq<u8>, rest: seq<u8>)
    requires BytesValid(b)
    ensures DecodeBytes(EncodeBytes(b) + rest) == Some((b, rest))
  {
    U32RoundTrip(|b| as u32, b + rest);
    assert EncodeBytes(b) + rest == EncodeU32(|b| as u32) + (b + rest);
    assert (b + rest)[..|b|] == b && (b + rest)[|b|..] == rest;
  }

  lemma BytesCanonical(bs: seq<u8>)
    ensures DecodeBytes(bs).Some? ==>
      BytesValid(DecodeBytes(bs).value.0) && bs == EncodeBytes(DecodeBytes(bs).value.0) + DecodeBytes(bs).value.1
  {
    if DecodeBytes(bs).Some? {
      var (n, mid) := DecodeU32(bs).value;
      U32Canonical(bs);
      assert mid == mid[..n] + mid[n..];
    }
  }

  lemma BytesCodec()
    ensures Inverse(EncodeBytes, DecodeBytes, BytesValid)
    ensures Canonical(EncodeBytes, DecodeBytes, BytesValid)
  {
    forall b, rest | BytesValid(b) ensures DecodeBytes(EncodeBytes(b) + rest) == Some((b, rest)) {
      BytesRoundTrip(b, rest);
    }
    forall bs | DecodeBytes(bs).Some?
      ensures BytesValid(DecodeBytes(bs).value.0)
      ensures bs == EncodeBytes(DecodeBytes(bs).value.0) + DecodeBytes(bs).value.1
    {
      BytesCanonical(bs);
    }
  }

  /** A fixed 32-byte representation: a `pallas::Base` element, a contract
      id or a public key, read and written verbatim. */
  type Repr32 = s: seq<u8> | |s| == 32 witness seq(32, i => 0)

  function DecodeRepr32(bs: seq<u8>): (r: Option<(Repr32, seq<u8>)>)
  {
    if |bs| < 32 then None else Some((bs[..32], bs[32..]))
  }
}
