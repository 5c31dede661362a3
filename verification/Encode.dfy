/** The body encoders of src/proto/h1/encode.rs. */
module Encode {
  import opened Bytes
  import opened ChunkedGrammar

  datatype Kind = Chunked | Length(remaining: nat) | CloseDelimited

  const LAST_CHUNK: seq<byte> := [48, CR, LF, CR, LF]

  // ----- chunk sizes -----

  function UpperDigit(d: nat): (b: byte)
    requires d < 16
    ensures IsHex(b) && HexDigit(b) == d
  {
    if d < 10 then 48 + d else 55 + d
  }

  /** `{:X}`. */
  function UpperHex(n: nat): (s: seq<byte>)
    ensures AllHex(s) && HexVal(s) == n && s != []
  {
    if n < 16 then
      assert HexVal([UpperDigit(n)]) == HexVal([UpperDigit(n)][..0]) * 16 + n;
      [UpperDigit(n)]
    else
      var s := UpperHex(n / 16) + [UpperDigit(n % 16)];
      assert s[..|s| - 1] == UpperHex(n / 16);
      s
  }

  function Pow16(k: nat): (p: nat)
    ensures p > 0
  {
    if k == 0 then 1 else 16 * Pow16(k - 1)
  }

  lemma {:induction false} UpperHexLength(n: nat, k: nat)
    requires n < Pow16(k)
    ensures |UpperHex(n)| <= if k == 0 then 1 else k
    decreases k
  {
    assert Pow16(1) == 16;
    if n >= 16 {
      assert k >= 2;
      UpperHexLength(n / 16, k - 1);
    }
  }

  lemma SixteenDigits(n: nat)
    requires n < U64
    ensures |UpperHex(n)| <= 16
  {
    assert Pow16(4) == 0x1_0000 by { assert Pow16(2) == 256; }
    assert Pow16(8) == 0x1_0000_0000 by { assert Pow16(6) == 0x100_0000; }
    assert Pow16(12) == 0x1_0000_0000_0000 by { assert Pow16(10) == 0x100_0000_0000; }
    assert Pow16(16) == U64 by { assert Pow16(14) == 0x100_0000_0000_0000; }
    UpperHexLength(n, 16);
  }

  const CHUNK_SIZE_MAX_BYTES: nat := 16

  /** A chunk size and its CRLF in a fixed buffer, read through a position. */
  class ChunkSize {
    const bytes: array<byte>
    var pos: nat
    var len: nat

    ghost predicate Valid()
      reads this
    {
      bytes.Length == CHUNK_SIZE_MAX_BYTES + 2 && pos <= len <= bytes.Length
    }

    ghost function Contents(): seq<byte>
      requires Valid()
      reads this, bytes
    {
      bytes[pos..len]
    }

    constructor (size: nat)
      requires size < U64
      ensures Valid() && fresh(bytes) && Contents() == UpperHex(size) + CRLF
    {
      bytes := new byte[CHUNK_SIZE_MAX_BYTES + 2](_ => 0);
      pos, len := 0, 0;
      new;
      SixteenDigits(size);
      WriteStr(UpperHex(size));
      WriteStr(CRLF);
    }

    /** `fmt::Write::write_str`. */
    method WriteStr(num: seq<byte>)
      requires Valid() && len + |num| <= bytes.Length
      modifies this`len, bytes
      ensures Valid() && len == old(len) + |num| && Contents() == old(Contents()) + num
    {
      forall i | 0 <= i < |num| {
        bytes[len + i] := num[i];
      }
      len := len + |num|;
    }

    method Advance(cnt: nat)
      requires Valid() && cnt <= len - pos
      modifies this`pos
      ensures Valid() && Contents() == old(Contents())[cnt..]
    {
      pos := pos + cnt;
    }
  }

  // ----- encoded buffers -----

  datatype EncodedBuf =
    | Exact(msg: seq<byte>)
    | Limited(msg: seq<byte>, limit: nat)
    | ChunkedBuf(size: seq<byte>, msg: seq<byte>, tail: seq<byte>)
    | ChunkedEnd(tail: seq<byte>)
  {
    predicate Valid() {
      Limited? ==> limit <= |msg|
    }

    /** The slices the buffer presents to the transport, in order. */
    function Slices(): seq<seq<byte>>
      requires Valid()
    {
      match this
      case Exact(msg) => [msg]
      case Limited(msg, limit) => [msg[..limit]]
      case ChunkedBuf(size, msg, tail) => [size, msg, tail]
      case ChunkedEnd(tail) => [tail]
    }

    function Bytes(): seq<byte>
      requires Valid()
    {
      Concat(Slices())
    }
  }

  function ChunkBytes(msg: seq<byte>): seq<byte> {
    UpperHex(|msg|) + CRLF + msg + CRLF
  }

  function Min(a: nat, b: nat): nat {
    if a < b then a else b
  }

  lemma ChunkedBufBytes(size: seq<byte>, msg: seq<byte>, tail: seq<byte>)
    ensures ChunkedBuf(size, msg, tail).Bytes() == size + msg + tail
  {
    var s := ChunkedBuf(size, msg, tail).Slices();
    assert s[1..] == [msg, tail] && s[1..][1..] == [tail];
    assert Concat([tail]) == tail + Concat([]);
    assert Concat([msg, tail]) == msg + Concat([tail]);
  }

  lemma OneSlice(e: EncodedBuf)
    requires e.Valid() && !e.ChunkedBuf?
    ensures e.Bytes() == e.Slices()[0]
  {
    ConcatSnoc([], e.Slices()[0]);
    assert e.Slices() == [] + [e.Slices()[0]];
  }

  // ----- the encoder -----

  class Encoder {
    var kind: Kind
    var isLast: bool

    constructor (kind: Kind, isLast: bool)
      ensures this.kind == kind && this.isLast == isLast
    {
      this.kind, this.isLast := kind, isLast;
    }

    predicate IsEof()
      reads this
    {
      kind == Length(0)
    }

    method MakeChunk(msg: seq<byte>, tail: seq<byte>) returns (r: EncodedBuf)
      requires |msg| < U64
      ensures r.Valid() && r.Bytes() == UpperHex(|msg|) + CRLF + msg + tail
    {
      var size := new ChunkSize(|msg|);
      ChunkedBufBytes(size.bytes[size.pos..size.len], msg, tail);
      return ChunkedBuf(size.bytes[size.pos..size.len], msg, tail);
    }

    /** `encode`: one buffer of the body. */
    method Encode(msg: seq<byte>) returns (r: EncodedBuf)
      requires 0 < |msg| < U64
      modifies this`kind
      ensures r.Valid()
      ensures match old(kind)
              case Chunked => kind == Chunked && r.Bytes() == ChunkBytes(msg)
              case Length(n) => kind == Length(n - Min(n, |msg|)) && r.Bytes() == msg[..Min(n, |msg|)]
              case CloseDelimited => kind == CloseDelimited && r.Bytes() == msg
      ensures old(kind) != Length(0) ==> r.Bytes() != []
    {
      match kind {
        case Chunked =>
          r := MakeChunk(msg, CRLF);
        case Length(remaining) =>
          if |msg| > remaining {
            kind := Length(0);
            r := Limited(msg, remaining);
          } else {
            kind := Length(remaining - |msg|);
            r := Exact(msg);
            assert msg[..|msg|] == msg;
          }
          OneSlice(r);
        case CloseDelimited =>
          r := Exact(msg);
          OneSlice(r);
      }
    }

    /** `encode_and_end`: the last buffer of the body together with whatever ends it. The flag says
        whether the connection may be used again. */
    method EncodeAndEnd(msg: seq<byte>) returns (r: EncodedBuf, canKeepAlive: bool)
      requires 0 < |msg| < U64
      ensures r.Valid()
      ensures r.Bytes() == match kind
                           case Chunked => ChunkBytes(msg) + LAST_CHUNK
                           case Length(n) => msg[..Min(n, |msg|)]
                           case CloseDelimited => msg
      ensures canKeepAlive <==> !isLast && (kind == Chunked || (kind.Length? && kind.remaining <= |msg|))
      ensures kind != Length(0) ==> r.Bytes() != []
    {
      match kind {
        case Chunked =>
          r := MakeChunk(msg, CRLF + LAST_CHUNK);
          assert UpperHex(|msg|) + CRLF + msg + (CRLF + LAST_CHUNK) == ChunkBytes(msg) + LAST_CHUNK;
          return r, !isLast;
        case Length(remaining) =>
          r := if |msg| > remaining then Limited(msg, remaining) else Exact(msg);
          OneSlice(r);
          assert msg[..|msg|] == msg;
          return r, if |msg| >= remaining then !isLast else false;
        case CloseDelimited =>
          r := Exact(msg);
          OneSlice(r);
          return r, false;
      }
    }

    /** `end`: what ends the body, or an error when bytes are still owed. */
    method End() returns (r: Result<Option<EncodedBuf>, ()>)
      ensures r.Err? <==> kind.Length? && kind.remaining > 0
      ensures r.Ok? && r.value.Some? ==>
                r.value.value.Valid() && r.value.value.Bytes() == LAST_CHUNK
      ensures r.Ok? ==> (r.value.Some? <==> kind == Chunked)
    {
      match kind {
        case Length(n) => return if n == 0 then Ok(None) else Err(());
        case Chunked =>
          OneSlice(ChunkedEnd(LAST_CHUNK));
          return Ok(Some(ChunkedEnd(LAST_CHUNK)));
        case CloseDelimited => return Ok(None);
      }
    }

    /** `danger_full_buf`: a whole body at once, trusted to be as long as the headers said. */
    method DangerFullBuf(msg: seq<byte>) returns (r: EncodedBuf)
      requires 0 < |msg| < U64
      requires kind.Length? ==> kind.remaining == |msg|
      ensures r.Valid() && r.Bytes() == if kind == Chunked then ChunkBytes(msg) + LAST_CHUNK else msg
    {
      if kind == Chunked {
        r := MakeChunk(msg, CRLF + LAST_CHUNK);
        assert UpperHex(|msg|) + CRLF + msg + (CRLF + LAST_CHUNK) == ChunkBytes(msg) + LAST_CHUNK;
      } else {
        r := Exact(msg);
        OneSlice(r);
      }
    }
  }
}
