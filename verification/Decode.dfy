/** The body decoders of src/proto/h1/decode.rs. */
module Decode {
  import opened Bytes
  import opened ReadIo

  datatype ChunkedState =
    | Size | SizeLws | Extension | SizeLf
    | Body | BodyCr | BodyLf
    | Trailer | TrailerLf | EndCr | EndLf | End

  datatype Kind =
    | Length(remaining: nat)
    | Chunked(state: ChunkedState, size: nat)
    | Eof(isEof: bool)

  datatype Error =
    | Io
    | UnexpectedEof
    | IncompleteBody
    | SizeOverflow
    | InvalidSize
    | InvalidSizeLws
    | ExtensionNewline
    | InvalidSizeLf
    | InvalidBodyCr
    | InvalidBodyLf
    | InvalidTrailerLf
    | InvalidEndLf

  // ----- the meaning of a decoder: what it makes of a whole stream, read in one go -----

  datatype Verdict = Complete(rest: seq<byte>) | Broken(error: Error)

  datatype Outcome = Outcome(body: seq<byte>, verdict: Verdict)

  function Prepend(buf: seq<byte>, o: Outcome): Outcome {
    Outcome(buf + o.body, o.verdict)
  }

  datatype Step = Next(state: ChunkedState, size: nat) | Fail(error: Error)

  /** Shift one more digit into the chunk size, refusing what does not fit in 64 bits. */
  function AddDigit(size: nat, digit: nat): Step {
    if size * 16 >= U64 then Fail(SizeOverflow)
    else if size * 16 + digit >= U64 then Fail(SizeOverflow)
    else Next(Size, size * 16 + digit)
  }

  /** What one byte does in every state that reads a single byte (all but Body and End). */
  function ByteStep(state: ChunkedState, size: nat, b: byte): Step
    requires state != Body && state != End
  {
    match state
    case Size =>
      if 48 <= b <= 57 then AddDigit(size, b - 48)
      else if 97 <= b <= 102 then AddDigit(size, b + 10 - 97)
      else if 65 <= b <= 70 then AddDigit(size, b + 10 - 65)
      else if b == 9 || b == 32 then Next(SizeLws, size)
      else if b == 59 then Next(Extension, size)
      else if b == CR then Next(SizeLf, size)
      else Fail(InvalidSize)
    case SizeLws =>
      if b == 9 || b == 32 then Next(SizeLws, size)
      else if b == 59 then Next(Extension, size)
      else if b == CR then Next(SizeLf, size)
      else Fail(InvalidSizeLws)
    case Extension =>
      if b == CR then Next(SizeLf, size)
      else if b == LF then Fail(ExtensionNewline)
      else Next(Extension, size)
    case SizeLf =>
      if b == LF then Next(if size == 0 then EndCr else Body, size) else Fail(InvalidSizeLf)
    case BodyCr => if b == CR then Next(BodyLf, size) else Fail(InvalidBodyCr)
    case BodyLf => if b == LF then Next(Size, size) else Fail(InvalidBodyLf)
    case Trailer => Next(if b == CR then TrailerLf else Trailer, size)
    case TrailerLf => if b == LF then Next(EndCr, size) else Fail(InvalidTrailerLf)
    case EndCr => Next(if b == CR then EndLf else Trailer, size)
    case EndLf => if b == LF then Next(End, size) else Fail(InvalidEndLf)
  }

  /** The states a chunked decoder can be in: the size fits in 64 bits, it counts what is left of
      the current chunk, and it is back to 0 whenever a new size is about to be read. */
  predicate ValidChunked(state: ChunkedState, size: nat) {
    && size < U64
    && (state == Body ==> size > 0)
    && (state in {BodyCr, BodyLf, Trailer, TrailerLf, EndCr, EndLf, End} ==> size == 0)
  }

  /** The chunked decoder on a whole stream, one byte at a time and with no schedule. */
  function Scan(state: ChunkedState, size: nat, input: seq<byte>): Outcome
    requires ValidChunked(state, size)
    decreases |input|
  {
    if state == End then Outcome([], Complete(input))
    else if input == [] then Outcome([], Broken(if state == Body then IncompleteBody else UnexpectedEof))
    else if state == Body then
      Prepend([input[0]], Scan(if size > 1 then Body else BodyCr, size - 1, input[1..]))
    else
      match ByteStep(state, size, input[0])
      case Fail(e) => Outcome([], Broken(e))
      case Next(s, z) => Scan(s, z, input[1..])
  }

  predicate ValidKind(kind: Kind) {
    match kind
    case Length(n) => n < U64
    case Chunked(state, size) => ValidChunked(state, size)
    case Eof(_) => true
  }

  predicate AtEof(kind: Kind) {
    kind == Length(0) || (kind.Chunked? && kind.state == End) || kind == Eof(true)
  }

  function Meaning(kind: Kind, input: seq<byte>): Outcome
    requires ValidKind(kind)
  {
    match kind
    case Length(n) =>
      if n <= |input| then Outcome(input[..n], Complete(input[n..]))
      else Outcome(input, Broken(IncompleteBody))
    case Chunked(state, size) => Scan(state, size, input)
    case Eof(isEof) => if isEof then Outcome([], Complete(input)) else Outcome(input, Complete([]))
  }

  /** Taking a whole piece of a chunk at once is taking its bytes one by one. */
  lemma {:induction false} ScanPiece(size: nat, piece: seq<byte>, input: seq<byte>)
    requires 0 < |piece| <= size < U64
    ensures Scan(Body, size, piece + input) ==
            Prepend(piece, Scan(if size > |piece| then Body else BodyCr, size - |piece|, input))
    decreases |piece|
  {
    assert (piece + input)[1..] == piece[1..] + input;
    if |piece| == 1 {
      assert piece[1..] + input == input;
      assert piece == [piece[0]];
    } else {
      ScanPiece(size - 1, piece[1..], input);
      assert [piece[0]] + piece[1..] == piece;
      var o := Scan(if size > |piece| then Body else BodyCr, size - |piece|, input);
      assert [piece[0]] + (piece[1..] + o.body) == piece + o.body;
    }
  }

  lemma {:induction false} ScanOne(state: ChunkedState, size: nat, b: byte, rest: seq<byte>)
    requires ValidChunked(state, size) && state != Body && state != End
    ensures Scan(state, size, [b] + rest) ==
            var step := ByteStep(state, size, b);
            if step.Fail? then Outcome([], Broken(step.error)) else Scan(step.state, step.size, rest)
  {
    assert ([b] + rest)[1..] == rest;
  }

  // ----- the decoder itself -----

  datatype DecodeStep = Advance(state: ChunkedState, buf: Option<seq<byte>>) | Failed(error: Error)

  class Decoder {
    var kind: Kind

    constructor (kind: Kind)
      requires ValidKind(kind)
      ensures this.kind == kind && Valid()
    {
      this.kind := kind;
    }

    ghost predicate Valid()
      reads this
    {
      ValidKind(kind)
    }

    predicate IsEof()
      reads this
      ensures IsEof() == AtEof(kind)
    {
      match kind
      case Length(n) => n == 0
      case Chunked(state, _) => state == End
      case Eof(isEof) => isEof
    }

    /** `ChunkedState::step`: read what the current state needs and say where to go next. The size
        is updated in place. An I/O error or a pending read leaves everything as it was. */
    method ChunkedStep(io: Buffered) returns (r: Poll<DecodeStep>)
      requires Valid() && kind.Chunked?
      modifies this, io
      ensures r.Pending? || r.value == Failed(Io) ==> kind == old(kind) && io.Input() == old(io.Input())
      ensures (r.Pending? ==> io.readBlocked) && (r == Ready(Failed(Io)) ==> io.failed)
      ensures r.Ready? && r.value.Failed? && r.value.error != Io ==>
                Meaning(old(kind), old(io.Input())) == Outcome([], Broken(r.value.error))
      ensures r.Ready? && r.value.Advance? ==>
                && kind.Chunked? && kind.state == old(kind.state)
                && ValidChunked(r.value.state, kind.size)
                && var piece := if r.value.buf.Some? then r.value.buf.value else [];
                && (r.value.buf.Some? <==> old(kind.state) == Body)
                && (r.value.buf.Some? ==> piece != [] && r.value.state != End)
                && Meaning(old(kind), old(io.Input())) ==
                   Prepend(piece, Scan(r.value.state, kind.size, io.Input()))
                && |io.Input()| <= |old(io.Input())|
                && (|io.Input()| < |old(io.Input())| || old(kind.state) == End)
      ensures old(kind.state) == End ==>
                r == Ready(Advance(End, None)) && kind == old(kind) && io.Input() == old(io.Input())
    {
      if kind.state == End {
        return Ready(Advance(End, None));
      } else if kind.state == Body {
        r := ReadBody(io);
        return;
      }
      r := ReadByte(io);
    }

    /** Any of the steps that read a single byte. */
    method ReadByte(io: Buffered) returns (r: Poll<DecodeStep>)
      requires Valid() && kind.Chunked? && kind.state != Body && kind.state != End
      modifies this, io
      ensures r.Pending? || r.value == Failed(Io) ==> kind == old(kind) && io.Input() == old(io.Input())
      ensures (r.Pending? ==> io.readBlocked) && (r == Ready(Failed(Io)) ==> io.failed)
      ensures r.Ready? && r.value.Failed? && r.value.error != Io ==>
                Meaning(old(kind), old(io.Input())) == Outcome([], Broken(r.value.error))
      ensures r.Ready? && r.value.Advance? ==>
                && kind.Chunked? && kind.state == old(kind.state) && r.value.buf == None
                && ValidChunked(r.value.state, kind.size)
                && Meaning(old(kind), old(io.Input())) == Scan(r.value.state, kind.size, io.Input())
                && |io.Input()| < |old(io.Input())|
    {
      var read := io.ReadMem(1);
      match read {
        case Pending => return Pending;
        case Ready(Err(_)) => return Ready(Failed(Io));
        case Ready(Ok(buf)) =>
          if buf == [] {
            return Ready(Failed(UnexpectedEof));
          }
          assert buf == [buf[0]];
          var step := TakeByte(buf[0], io.Input());
          return Ready(step);
      }
    }

    /** What the byte does. */
    method TakeByte(b: byte, ghost rest: seq<byte>) returns (r: DecodeStep)
      requires Valid() && kind.Chunked? && kind.state != Body && kind.state != End
      modifies this
      ensures r.Failed? ==> r.error != Io && Meaning(old(kind), [b] + rest) == Outcome([], Broken(r.error))
      ensures r.Advance? ==>
                && kind.Chunked? && kind.state == old(kind.state) && r.buf == None && ValidChunked(r.state, kind.size)
                && Meaning(old(kind), [b] + rest) == Scan(r.state, kind.size, rest)
    {
      ScanOne(kind.state, kind.size, b, rest);
      match ByteStep(kind.state, kind.size, b) {
        case Fail(e) => return Failed(e);
        case Next(state, size) =>
          kind := Chunked(kind.state, size);
          return Advance(state, None);
      }
    }

    /** `ChunkedState::read_body`. */
    method ReadBody(io: Buffered) returns (r: Poll<DecodeStep>)
      requires Valid() && kind.Chunked? && kind.state == Body
      modifies this, io
      ensures r.Pending? || r.value == Failed(Io) ==> kind == old(kind) && io.Input() == old(io.Input())
      ensures (r.Pending? ==> io.readBlocked) && (r == Ready(Failed(Io)) ==> io.failed)
      ensures r.Ready? && r.value.Failed? && r.value.error != Io ==>
                Meaning(old(kind), old(io.Input())) == Outcome([], Broken(r.value.error))
      ensures r.Ready? && r.value.Advance? ==>
                && r.value.buf.Some? && 0 < |r.value.buf.value| <= old(kind.size)
                && old(io.Input()) == r.value.buf.value + io.Input()
                && kind == Chunked(Body, old(kind.size) - |r.value.buf.value|)
                && r.value.state == (if kind.size > 0 then Body else BodyCr)
                && Meaning(old(kind), old(io.Input())) ==
                   Prepend(r.value.buf.value, Scan(r.value.state, kind.size, io.Input()))
    {
      var read := io.ReadMem(kind.size);
      match read {
        case Pending => return Pending;
        case Ready(Err(_)) => return Ready(Failed(Io));
        case Ready(Ok(slice)) =>
          var count := |slice|;
          if count == 0 {
            kind := Chunked(Body, 0);
            return Ready(Failed(IncompleteBody));
          }
          ScanPiece(kind.size, slice, io.Input());
          kind := Chunked(Body, kind.size - count);
          return Ready(Advance(if kind.size > 0 then Body else BodyCr, Some(slice)));
      }
    }

    /** `Decoder::decode`: the next piece of the body. Whatever the transport does, what the decoder
        would make of the stream it had is the piece followed by what it makes of the rest. */
    method Decode(io: Buffered) returns (r: Poll<Result<seq<byte>, Error>>)
      requires Valid()
      modifies this, io
      ensures !(r.Ready? && r.value.Err? && r.value.error != Io) ==> Valid()
      ensures (r.Pending? ==> io.readBlocked) && (r == Ready(Err(Io)) ==> io.failed)
      ensures r.Pending? || r.value == Err(Io) ==>
                && Meaning(kind, io.Input()) == Meaning(old(kind), old(io.Input()))
                && AtEof(kind) == AtEof(old(kind))
                && (kind.Chunked? <==> old(kind.Chunked?))
      ensures r.Ready? && r.value.Ok? ==>
                && Meaning(old(kind), old(io.Input())) == Prepend(r.value.value, Meaning(kind, io.Input()))
                && (r.value.value == [] ==> AtEof(kind))
                && (r.value.value != [] ==> |io.Input()| < |old(io.Input())|)
      ensures r.Ready? && r.value.Err? && r.value.error != Io ==>
                Meaning(old(kind), old(io.Input())) == Outcome([], Broken(r.value.error))
      ensures AtEof(old(kind)) ==> r == Ready(Ok([])) && kind == old(kind) && io.Input() == old(io.Input())
      ensures old(kind).Length? ==>
                if r.Ready? && r.value.Ok? then
                  && |r.value.value| <= old(kind).remaining && kind == Length(old(kind).remaining - |r.value.value|)
                  && old(io.Input()) == r.value.value + io.Input()
                else kind == old(kind) && io.Input() == old(io.Input())
      // Bytes that are there already are delivered without asking the transport.
      ensures old(kind).Length? && old(kind).remaining > 0 && old(io.readBuf) != [] ==>
                var buf := old(io.readBuf);
                r == Ready(Ok(if old(kind).remaining <= |buf| then buf[..old(kind).remaining] else buf))
    {
      match kind {
        case Length(remaining) =>
          if remaining == 0 {
            return Ready(Ok([]));
          }
          var read := io.ReadMem(remaining);
          match read {
            case Pending => return Pending;
            case Ready(Err(_)) => return Ready(Err(Io));
            case Ready(Ok(buf)) =>
              var num := |buf|;
              if num == 0 {
                return Ready(Err(IncompleteBody));
              }
              kind := Length(if num > remaining then 0 else remaining - num);
              if remaining <= |old(io.Input())| {
                assert old(io.Input())[..remaining] == buf + io.Input()[..remaining - num];
                assert old(io.Input())[remaining..] == io.Input()[remaining - num..];
              }
              return Ready(Ok(buf));
          }
        case Chunked(_, _) =>
          r := DecodeChunked(io);
        case Eof(isEof) =>
          if isEof {
            return Ready(Ok([]));
          }
          var read := io.ReadMem(8192);
          match read {
            case Pending => return Pending;
            case Ready(Err(_)) => return Ready(Err(Io));
            case Ready(Ok(slice)) =>
              kind := Eof(slice == []);
              return Ready(Ok(slice));
          }
      }
    }

    /** The loop of `decode` over chunked states. */
    method DecodeChunked(io: Buffered) returns (r: Poll<Result<seq<byte>, Error>>)
      requires Valid() && kind.Chunked?
      modifies this, io
      ensures !(r.Ready? && r.value.Err? && r.value.error != Io) ==> Valid() && kind.Chunked?
      ensures (r.Pending? ==> io.readBlocked) && (r == Ready(Err(Io)) ==> io.failed)
      ensures r.Pending? || r.value == Err(Io) ==>
                && Meaning(kind, io.Input()) == Meaning(old(kind), old(io.Input()))
                && !AtEof(kind) && !AtEof(old(kind))
      ensures r.Ready? && r.value.Ok? ==>
                && Meaning(old(kind), old(io.Input())) == Prepend(r.value.value, Meaning(kind, io.Input()))
                && (r.value.value == [] <==> AtEof(kind))
                && (r.value.value != [] ==> |io.Input()| < |old(io.Input())|)
      ensures r.Ready? && r.value.Err? && r.value.error != Io ==>
                Meaning(old(kind), old(io.Input())) == Outcome([], Broken(r.value.error))
      ensures AtEof(old(kind)) ==> r == Ready(Ok([])) && kind == old(kind) && io.Input() == old(io.Input())
    {
      while true
        invariant Valid() && kind.Chunked?
        invariant Meaning(kind, io.Input()) == Meaning(old(kind), old(io.Input()))
        invariant |io.Input()| <= |old(io.Input())|
        invariant AtEof(old(kind)) <==> AtEof(kind)
        invariant AtEof(old(kind)) ==> kind == old(kind) && io.Input() == old(io.Input())
        decreases |io.Input()|
      {
        var step := ChunkedStep(io);
        match step {
          case Pending => return Pending;
          case Ready(Failed(e)) => return Ready(Err(e));
          case Ready(Advance(state, buf)) =>
            kind := Chunked(state, kind.size);
            if state == End {
              return Ready(Ok([]));
            }
            if buf.Some? {
              return Ready(Ok(buf.value));
            }
        }
      }
    }
  }
}
