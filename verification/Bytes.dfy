/** Shared vocabulary: bytes, polling results and sequences of buffers. */
module Bytes {

  type byte = x: int | 0 <= x < 256

  /** 2^64: hyper is modelled on a target whose `usize` and `u64` are both 64 bits wide. */
  const U64: nat := 0x1_0000_0000_0000_0000

  const CR: byte := 13
  const LF: byte := 10
  const CRLF: seq<byte> := [CR, LF]

  datatype Option<+T> = None | Some(value: T)

  /** The result of polling: not ready yet, or ready with a value. */
  datatype Poll<+T> = Pending | Ready(value: T)

  datatype Result<+T, +E> = Ok(value: T) | Err(error: E)

  /** The bytes of a list of buffers, in order. */
  function Concat(bufs: seq<seq<byte>>): (r: seq<byte>) {
    if bufs == [] then [] else bufs[0] + Concat(bufs[1..])
  }

  lemma {:induction false} ConcatAppend(a: seq<seq<byte>>, b: seq<seq<byte>>)
    ensures Concat(a + b) == Concat(a) + Concat(b)
  {
    if a == [] {
      assert a + b == b;
    } else {
      assert (a + b)[1..] == a[1..] + b;
      ConcatAppend(a[1..], b);
    }
  }

  lemma {:induction false} ConcatSnoc(a: seq<seq<byte>>, x: seq<byte>)
    ensures Concat(a + [x]) == Concat(a) + x
  {
    ConcatAppend(a, [x]);
    assert Concat([x]) == x + Concat([]);
  }
}
