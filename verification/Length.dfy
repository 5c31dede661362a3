/** `DecodedLength` (src/body/length.rs): a content length in 64 bits, with two values set aside. */
module Length {
  import opened Bytes

  type u64 = x: int | 0 <= x < U64

  datatype DecodedLength = DecodedLength(len: u64) {

    function IntoOpt(): (r: Option<u64>)
      ensures r.Some? <==> IsExact()
      ensures r.Some? ==> r.value == len
    {
      if this == CHUNKED || this == CLOSE_DELIMITED then None else Some(len)
    }

    predicate IsExact() {
      len <= MAX_LEN
    }

    /** `sub_if`: in the source the subtraction would panic or wrap if `amt` were larger. */
    function SubIf(amt: u64): (r: DecodedLength)
      requires IsExact() ==> amt <= len
      ensures r.IntoOpt() == if IsExact() then Some(len - amt) else None
      ensures !IsExact() ==> r == this
    {
      if this == CHUNKED || this == CLOSE_DELIMITED then this else DecodedLength(len - amt)
    }
  }

  const MAX_LEN: u64 := U64 - 3
  const CLOSE_DELIMITED: DecodedLength := DecodedLength(U64 - 1)
  const CHUNKED: DecodedLength := DecodedLength(U64 - 2)
  const ZERO: DecodedLength := DecodedLength(0)

  function CheckedNew(len: u64): (r: Option<DecodedLength>)
    ensures r.Some? <==> len <= MAX_LEN
    ensures r.Some? ==> r.value.IntoOpt() == Some(len)
  {
    if len <= MAX_LEN then Some(DecodedLength(len)) else None
  }
}
