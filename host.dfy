/** The host's return-data buffer behind `set_return_data`. The host gives
    every entrypoint invocation an empty buffer; the buffer takes one write
    and refuses any further one, leaving the first in place. */
module Host {

  import opened Options
  import opened Serial
  import opened Sdk

  class ReturnBuffer {
    var data: Option<seq<u8>>

    constructor ()
      ensures data == None
    {
      data := None;
    }

    /** `set_return_data`. A refused write is reported with the host's
        error code, modelled as `Internal`. */
    method Set(bytes: seq<u8>) returns (r: ContractResult)
      modifies this
      ensures old(data) == None ==> r == Ok && data == Some(bytes)
      ensures old(data) != None ==> r == Err(Internal) && data == old(data)
    {
      if data == None {
        data := Some(bytes);
        r := Ok;
      } else {
        r := Err(Internal);
      }
    }
  }
}
