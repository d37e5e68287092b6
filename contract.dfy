/** The crate root's `ContractFunction`: the closed set of functions this
    contract exposes, each named by a one-byte selector. The selector byte of
    `Hello` is fixed in the crate root, which is not part of this model, so it
    is left unspecified here: everything proved holds whatever its value. */
module Contract {

  import opened Options
  import opened Serial

  const HelloTag: u8

  datatype ContractFunction = Hello

  /** `ContractFunction::X as u8`. */
  function ToByte(f: ContractFunction): u8
  {
    match f
    case Hello => HelloTag
  }

  /** `ContractFunction::try_from(u8)`: recognises exactly the selectors of
      the enumeration, and gives back the function whose selector it is. */
  function TryFromByte(b: u8): (r: Option<ContractFunction>)
    ensures r.Some? <==> b == HelloTag
    ensures r.Some? ==> ToByte(r.value) == b
  {
    if b == HelloTag then Some(Hello) else None
  }

  /** The selector of every function is recognised as that function. */
  lemma SelectorRoundTrip(f: ContractFunction)
    ensures TryFromByte(ToByte(f)) == Some(f)
  {
  }
}
