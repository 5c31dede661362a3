/** What the decoders accept: the chunked decoder against the grammar, and whole runs of `decode`
    under every schedule of the transport. */
module DecodeTheorems {
  import opened Bytes
  import opened ReadIo
  import opened Decode
  import opened ChunkedGrammar

  // ----- every rendering of the grammar is accepted -----

  lemma {:induction false} ScanByte(state: ChunkedState, size: nat, b: byte, tail: seq<byte>)
    requires ValidChunked(state, size) && state != Body && state != ChunkedState.End
    ensures Scan(state, size, [b] + tail) ==
            var step := ByteStep(state, size, b);
            if step.Fail? then Outcome([], Broken(step.error)) else Scan(step.state, step.size, tail)
  {
    assert ([b] + tail)[1..] == tail;
  }

  lemma {:induction false} HexValSnoc(s: seq<byte>, b: byte)
    requires AllHex(s) && IsHex(b)
    ensures AllHex(s + [b]) && HexVal(s + [b]) == HexVal(s) * 16 + HexDigit(b)
  {
    assert (s + [b])[..|s|] == s;
  }

  lemma PrependTwice(a: seq<byte>, b: seq<byte>, o: Outcome)
    ensures Prepend(a, Prepend(b, o)) == Prepend(a + b, o)
  {
    assert a + (b + o.body) == a + b + o.body;
  }

  lemma {:induction false} ScanDigit(size: nat, d: byte, tail: seq<byte>)
    requires IsHex(d) && size < U64
    ensures var more := size * 16 + HexDigit(d);
            Scan(Size, size, [d] + tail) == if more < U64 then Scan(Size, more, tail) else Outcome([], Broken(SizeOverflow))
  {
    ScanByte(Size, size, d, tail);
  }

  /** One more digit after those in `seen`. */
  lemma {:induction false} ScanNextDigit(seen: seq<byte>, d: byte, tail: seq<byte>)
    requires AllHex(seen) && IsHex(d) && HexVal(seen) < U64
    ensures AllHex(seen + [d]) && HexVal(seen) <= HexVal(seen + [d])
    ensures Scan(Size, HexVal(seen), [d] + tail) ==
            if HexVal(seen + [d]) < U64 then Scan(Size, HexVal(seen + [d]), tail) else Outcome([], Broken(SizeOverflow))
  {
    HexValSnoc(seen, d);
    ScanDigit(HexVal(seen), d, tail);
  }

  lemma FirstMoved(seen: seq<byte>, digits: seq<byte>, tail: seq<byte>)
    requires digits != []
    ensures seen + digits == (seen + [digits[0]]) + digits[1..]
    ensures digits + tail == [digits[0]] + (digits[1..] + tail)
  {
  }

  /** A run of digits, after those in `seen`, adds up to their value or overflows. */
  lemma {:induction false} ScanDigits(seen: seq<byte>, digits: seq<byte>, tail: seq<byte>)
    requires AllHex(seen) && AllHex(digits) && HexVal(seen) < U64
    ensures AllHex(seen + digits)
    ensures Scan(Size, HexVal(seen), digits + tail) ==
            if HexVal(seen + digits) < U64 then Scan(Size, HexVal(seen + digits), tail)
            else Outcome([], Broken(SizeOverflow))
    decreases |digits|
  {
    if digits == [] {
      assert seen + digits == seen && digits + tail == tail;
    } else {
      var d, more := digits[0], digits[1..];
      FirstMoved(seen, digits, tail);
      ScanNextDigit(seen, d, more + tail);
      if HexVal(seen + [d]) < U64 {
        ScanDigits(seen + [d], more, tail);
      } else {
        HexValMonotone(seen + [d], more);
      }
    }
  }

  lemma {:induction false} ScanLws(size: nat, lws: seq<byte>, tail: seq<byte>)
    requires size < U64 && AllLws(lws)
    ensures Scan(SizeLws, size, lws + tail) == Scan(SizeLws, size, tail)
    decreases |lws|
  {
    if lws == [] {
      assert lws + tail == tail;
    } else {
      assert (lws + tail)[1..] == lws[1..] + tail;
      ScanLws(size, lws[1..], tail);
    }
  }

  lemma {:induction false} ScanExtension(size: nat, ext: seq<byte>, tail: seq<byte>)
    requires size < U64 && CR !in ext && LF !in ext
    ensures Scan(Extension, size, ext + tail) == Scan(Extension, size, tail)
    decreases |ext|
  {
    if ext == [] {
      assert ext + tail == tail;
    } else {
      assert (ext + tail)[1..] == ext[1..] + tail;
      ScanExtension(size, ext[1..], tail);
    }
  }

  function AfterSizeLine(size: nat): ChunkedState {
    if size == 0 then EndCr else Body
  }

  lemma {:induction false} ScanCrlf(state: ChunkedState, size: nat, tail: seq<byte>)
    requires size < U64 && state in {Size, SizeLws, Extension}
    ensures Scan(state, size, CRLF + tail) == Scan(AfterSizeLine(size), size, tail)
  {
    assert (CRLF + tail)[1..] == [LF] + tail;
    assert ([LF] + tail)[1..] == tail;
  }

  /** What follows the digits of a size line. */
  lemma {:induction false} ScanLineEnd(size: nat, lws: seq<byte>, ext: seq<byte>, tail: seq<byte>)
    requires size < U64 && AllLws(lws) && IsExtension(ext)
    ensures Scan(Size, size, lws + ext + CRLF + tail) == Scan(AfterSizeLine(size), size, tail)
  {
    var afterLws := ext + CRLF + tail;
    assert lws + ext + CRLF + tail == lws + afterLws;
    if lws != [] {
      assert (lws + afterLws)[1..] == lws[1..] + afterLws;
      ScanLws(size, lws[1..], afterLws);
    } else {
      assert lws + afterLws == afterLws;
    }
    var state := if lws == [] then Size else SizeLws;
    assert Scan(Size, size, lws + afterLws) == Scan(state, size, afterLws);
    if ext == [] {
      assert afterLws == CRLF + tail;
      ScanCrlf(state, size, tail);
    } else {
      assert afterLws[1..] == ext[1..] + (CRLF + tail);
      ScanExtension(size, ext[1..], CRLF + tail);
      ScanCrlf(Extension, size, tail);
    }
  }

  lemma {:induction false} ScanSizeLine(line: SizeLine, tail: seq<byte>)
    requires line.Valid()
    ensures Scan(Size, 0, line.Render() + tail) ==
            Scan(AfterSizeLine(HexVal(line.digits)), HexVal(line.digits), tail)
  {
    assert line.Render() + tail == line.digits + (line.lws + line.ext + CRLF + tail);
    assert [] + line.digits == line.digits;
    ScanDigits([], line.digits, line.lws + line.ext + CRLF + tail);
    ScanLineEnd(HexVal(line.digits), line.lws, line.ext, tail);
  }

  lemma ChunkAssoc(chunk: Chunk, tail: seq<byte>)
    ensures chunk.Render() + tail == chunk.line.Render() + (chunk.data + (CRLF + tail))
    ensures CRLF + tail == [CR] + ([LF] + tail)
  {
  }

  lemma {:induction false} ScanChunk(chunk: Chunk, tail: seq<byte>)
    requires chunk.Valid()
    ensures Scan(Size, 0, chunk.Render() + tail) == Prepend(chunk.data, Scan(Size, 0, tail))
  {
    ChunkAssoc(chunk, tail);
    ScanSizeLine(chunk.line, chunk.data + (CRLF + tail));
    ScanPiece(|chunk.data|, chunk.data, CRLF + tail);
    ScanByte(BodyCr, 0, CR, [LF] + tail);
    ScanByte(BodyLf, 0, LF, tail);
  }

  lemma {:induction false} ScanTrailerLine(line: seq<byte>, tail: seq<byte>)
    requires CR !in line
    ensures Scan(Trailer, 0, line + CRLF + tail) == Scan(EndCr, 0, tail)
    decreases |line|
  {
    var s := line + CRLF + tail;
    if line == [] {
      assert s[1..] == [LF] + tail;
      assert ([LF] + tail)[1..] == tail;
    } else {
      assert s[1..] == line[1..] + CRLF + tail;
      ScanTrailerLine(line[1..], tail);
    }
  }

  lemma {:induction false} ScanTrailers(ts: seq<seq<byte>>, tail: seq<byte>)
    requires forall i :: 0 <= i < |ts| ==> IsTrailer(ts[i])
    ensures Scan(EndCr, 0, RenderTrailers(ts) + tail) == Outcome([], Complete(tail))
    decreases |ts|
  {
    var s := RenderTrailers(ts) + tail;
    if ts == [] {
      assert s[1..] == [LF] + tail;
      ScanByte(EndLf, 0, LF, tail);
    } else {
      var more := RenderTrailers(ts[1..]) + tail;
      assert s[1..] == ts[0][1..] + CRLF + more;
      ScanTrailerLine(ts[0][1..], more);
      ScanTrailers(ts[1..], tail);
    }
  }

  lemma {:induction false} ScanChunks(chunks: seq<Chunk>, tail: seq<byte>)
    requires forall i :: 0 <= i < |chunks| ==> chunks[i].Valid()
    ensures Scan(Size, 0, RenderChunks(chunks) + tail) == Prepend(PayloadOf(chunks), Scan(Size, 0, tail))
    decreases |chunks|
  {
    if chunks == [] {
      assert RenderChunks(chunks) + tail == tail;
    } else {
      var more := RenderChunks(chunks[1..]) + tail;
      assert RenderChunks(chunks) + tail == chunks[0].Render() + more;
      ScanChunk(chunks[0], more);
      ScanChunks(chunks[1..], tail);
      PrependTwice(chunks[0].data, PayloadOf(chunks[1..]), Scan(Size, 0, tail));
    }
  }

  /** Every message of the grammar, followed by anything, decodes to its payload and leaves what
      follows it unread. */
  lemma {:induction false} MessageAccepted(m: Message, suffix: seq<byte>)
    requires m.Valid()
    ensures Scan(Size, 0, m.Render() + suffix) == Outcome(m.Payload(), Complete(suffix))
  {
    var ending := RenderTrailers(m.trailers) + suffix;
    assert m.Render() + suffix == RenderChunks(m.chunks) + (m.last.Render() + ending);
    ScanChunks(m.chunks, m.last.Render() + ending);
    ScanSizeLine(m.last, ending);
    ScanTrailers(m.trailers, suffix);
  }

  // ----- nothing else is -----

  /** An accepted stream begins, inside an extension, with the rest of it and the end of the line. */
  lemma {:induction false} ExtensionRecovered(size: nat, input: seq<byte>) returns (ext: seq<byte>, rest: seq<byte>)
    requires size < U64 && Scan(Extension, size, input).verdict.Complete?
    ensures CR !in ext && LF !in ext && input == ext + CRLF + rest && |rest| < |input|
    ensures Scan(Extension, size, input) == Scan(AfterSizeLine(size), size, rest)
    decreases |input|
  {
    var b, tail := input[0], input[1..];
    if b == CR {
      ext, rest := [], tail[1..];
      assert input == [] + CRLF + rest;
    } else {
      ext, rest := ExtensionRecovered(size, tail);
      ext := [b] + ext;
      assert input == ext + CRLF + rest;
    }
  }

  /** The same after the digits of a size, from the first byte that is not one. */
  lemma {:induction false} LineEndRecovered(state: ChunkedState, size: nat, input: seq<byte>)
    returns (lws: seq<byte>, ext: seq<byte>, rest: seq<byte>)
    requires state in {Size, SizeLws} && size < U64 && Scan(state, size, input).verdict.Complete?
    requires state == Size ==> !IsHex(input[0])
    ensures AllLws(lws) && IsExtension(ext) && input == lws + ext + CRLF + rest && |rest| < |input|
    ensures Scan(state, size, input) == Scan(AfterSizeLine(size), size, rest)
    decreases |input|
  {
    var b, tail := input[0], input[1..];
    if b == CR {
      lws, ext, rest := [], [], tail[1..];
    } else if IsLws(b) {
      lws, ext, rest := LineEndRecovered(SizeLws, size, tail);
      lws := [b] + lws;
    } else {
      ext, rest := ExtensionRecovered(size, tail);
      lws, ext := [], [b] + ext;
    }
    assert input == lws + ext + CRLF + rest;
  }

  /** How many digits a stream starts with. */
  function DigitCount(input: seq<byte>): (n: nat)
    ensures n <= |input| && AllHex(input[..n]) && (n < |input| ==> !IsHex(input[n]))
  {
    if input == [] || !IsHex(input[0]) then 0 else 1 + DigitCount(input[1..])
  }

  lemma SeqAssoc(a: seq<byte>, b: seq<byte>, c: seq<byte>)
    ensures a + (b + c) == (a + b) + c
  {
  }

  lemma RenderAssoc(line: SizeLine, rest: seq<byte>)
    ensures line.digits + (line.lws + line.ext + CRLF + rest) == line.Render() + rest
  {
  }

  /** The same from the beginning of the line. */
  lemma {:induction false} LineRecovered(input: seq<byte>) returns (line: SizeLine, rest: seq<byte>)
    requires Scan(Size, 0, input).verdict.Complete?
    ensures line.Valid() && input == line.Render() + rest && |rest| < |input|
    ensures Scan(Size, 0, input) == Scan(AfterSizeLine(HexVal(line.digits)), HexVal(line.digits), rest)
  {
    var n := DigitCount(input);
    var digits, tail := input[..n], input[n..];
    assert input == digits + tail && [] + digits == digits;
    ScanDigits([], digits, tail);
    var lws, ext;
    lws, ext, rest := LineEndRecovered(Size, HexVal(digits), tail);
    line := SizeLine(digits, lws, ext);
    RenderAssoc(line, rest);
  }

  lemma {:induction false} BodyEndRecovered(input: seq<byte>)
    requires Scan(BodyCr, 0, input).verdict.Complete?
    ensures 2 <= |input| && input[..2] == CRLF && Scan(BodyCr, 0, input) == Scan(Size, 0, input[2..])
  {
    assert Scan(BodyLf, 0, input[1..]).verdict.Complete?;
    assert input[1..][1..] == input[2..];
  }

  lemma {:induction false} BodyRecovered(size: nat, input: seq<byte>)
    requires 0 < size < U64
    requires Scan(Body, size, input).verdict.Complete?
    ensures size + 2 <= |input| && input[size..size + 2] == CRLF
    ensures Scan(Body, size, input) == Prepend(input[..size], Scan(Size, 0, input[size + 2..]))
    decreases size
  {
    var tail := input[1..];
    if size == 1 {
      BodyEndRecovered(tail);
      assert tail[2..] == input[3..] && tail[..2] == input[1..3];
      assert input[..1] == [input[0]];
    } else {
      BodyRecovered(size - 1, tail);
      assert tail[size - 1..size + 1] == input[size..size + 2];
      assert tail[size + 1..] == input[size + 2..];
      assert [input[0]] + tail[..size - 1] == input[..size];
      var o := Scan(Size, 0, input[size + 2..]);
      assert [input[0]] + (tail[..size - 1] + o.body) == input[..size] + o.body;
    }
  }

  lemma {:induction false} TrailerLineRecovered(input: seq<byte>) returns (line: seq<byte>, rest: seq<byte>)
    requires Scan(Trailer, 0, input).verdict.Complete?
    ensures CR !in line && input == line + CRLF + rest && |rest| < |input|
    ensures Scan(Trailer, 0, input) == Scan(EndCr, 0, rest)
    decreases |input|
  {
    var b, tail := input[0], input[1..];
    if b == CR {
      line, rest := [], tail[1..];
      assert input == [] + CRLF + rest;
    } else {
      line, rest := TrailerLineRecovered(tail);
      line := [b] + line;
      assert input == line + CRLF + rest;
    }
  }

  lemma {:induction false} TrailersRecovered(input: seq<byte>) returns (ts: seq<seq<byte>>, rest: seq<byte>)
    requires Scan(EndCr, 0, input).verdict.Complete?
    ensures forall i :: 0 <= i < |ts| ==> IsTrailer(ts[i])
    ensures input == RenderTrailers(ts) + rest
    ensures Scan(EndCr, 0, input) == Outcome([], Complete(rest))
    decreases |input|
  {
    var b, tail := input[0], input[1..];
    if b == CR {
      assert Scan(EndLf, 0, tail) == Scan(ChunkedState.End, 0, tail[1..]);
      ts, rest := [], tail[1..];
      assert input == CRLF + rest;
    } else {
      var line, more := TrailerLineRecovered(tail);
      ts, rest := TrailersRecovered(more);
      assert input == ([b] + line) + CRLF + (RenderTrailers(ts) + rest);
      ts := [[b] + line] + ts;
      assert RenderTrailers(ts) == ts[0] + CRLF + RenderTrailers(ts[1..]);
    }
  }

  /** The syntax tree of an accepted stream. */
  lemma {:induction false} MessageRecovered(input: seq<byte>) returns (m: Message, rest: seq<byte>)
    requires Scan(Size, 0, input).verdict.Complete?
    ensures m.Valid() && input == m.Render() + rest
    ensures Scan(Size, 0, input) == Outcome(m.Payload(), Complete(rest))
    decreases |input|
  {
    var line, tail := LineRecovered(input);
    if HexVal(line.digits) == 0 {
      m, rest := EndRecovered(line, tail);
    } else {
      var chunk, more := ChunkRecovered(line, tail);
      var n;
      n, rest := MessageRecovered(more);
      m := ConsMessage(chunk, n);
      SeqAssoc(chunk.Render(), n.Render(), rest);
      SeqAssoc(chunk.data, n.Payload(), []);
    }
  }

  lemma {:induction false} EndRecovered(line: SizeLine, tail: seq<byte>) returns (m: Message, rest: seq<byte>)
    requires line.Valid() && HexVal(line.digits) == 0
    requires Scan(EndCr, 0, tail).verdict.Complete?
    ensures m.Valid() && line.Render() + tail == m.Render() + rest
    ensures Scan(EndCr, 0, tail) == Outcome(m.Payload(), Complete(rest))
  {
    var ts;
    ts, rest := TrailersRecovered(tail);
    m := Message([], line, ts);
    assert line.Render() + tail == m.Render() + rest;
  }

  lemma {:induction false} ChunkRecovered(line: SizeLine, tail: seq<byte>) returns (chunk: Chunk, more: seq<byte>)
    requires line.Valid() && HexVal(line.digits) > 0
    requires Scan(Body, HexVal(line.digits), tail).verdict.Complete?
    ensures chunk.Valid() && line.Render() + tail == chunk.Render() + more && |more| < |tail|
    ensures Scan(Body, HexVal(line.digits), tail) == Prepend(chunk.data, Scan(Size, 0, more))
  {
    var size := HexVal(line.digits);
    BodyRecovered(size, tail);
    chunk, more := Chunk(line, tail[..size]), tail[size + 2..];
    assert tail == tail[..size] + (CRLF + more);
    assert line.Render() + tail == chunk.Render() + more;
  }

  lemma {:induction false} ConsMessage(chunk: Chunk, n: Message) returns (m: Message)
    requires chunk.Valid() && n.Valid()
    ensures m.Valid() && m.Render() == chunk.Render() + n.Render() && m.Payload() == chunk.data + n.Payload()
  {
    m := n.(chunks := [chunk] + n.chunks);
    assert m.chunks[1..] == n.chunks;
    assert RenderChunks(m.chunks) == chunk.Render() + RenderChunks(n.chunks);
  }

  /** The decoder and the grammar agree on every stream: it is accepted, with some payload and some
      rest, if and only if it is that rest after a message of the grammar with that payload. */
  lemma {:induction false} AcceptedIffGrammatical(input: seq<byte>, payload: seq<byte>, rest: seq<byte>)
    ensures Scan(Size, 0, input) == Outcome(payload, Complete(rest)) <==>
            exists m: Message :: m.Valid() && m.Payload() == payload && input == m.Render() + rest
  {
    if Scan(Size, 0, input) == Outcome(payload, Complete(rest)) {
      var m, r := MessageRecovered(input);
    }
    forall m: Message | m.Valid() && m.Payload() == payload && input == m.Render() + rest
      ensures Scan(Size, 0, input) == Outcome(payload, Complete(rest))
    {
      MessageAccepted(m, rest);
    }
  }

  /** A size is refused for overflow exactly when the number its digits spell does not fit. */
  lemma {:induction false} OverflowIffTooLarge(digits: seq<byte>, tail: seq<byte>)
    requires AllHex(digits) && (tail != [] ==> !IsHex(tail[0]))
    ensures Scan(Size, 0, digits + tail) ==
            if HexVal(digits) < U64 then Scan(Size, HexVal(digits), tail)
            else Outcome([], Broken(SizeOverflow))
    ensures HexVal(digits) < U64 && (tail == [] || tail[0] !in {9, 32, SEMICOLON, CR}) ==>
              Scan(Size, 0, digits + tail) == Outcome([], Broken(if tail == [] then UnexpectedEof else InvalidSize))
  {
    assert [] + digits == digits;
    ScanDigits([], digits, tail);
    if HexVal(digits) < U64 && (tail == [] || tail[0] !in {9, 32, SEMICOLON, CR}) {
      SizeEndsBadly(HexVal(digits), tail);
    }
  }

  lemma {:induction false} SizeEndsBadly(size: nat, tail: seq<byte>)
    requires size < U64 && (tail == [] || (!IsHex(tail[0]) && tail[0] !in {9, 32, SEMICOLON, CR}))
    ensures Scan(Size, size, tail) == Outcome([], Broken(if tail == [] then UnexpectedEof else InvalidSize))
  {
    if tail != [] {
      assert ByteStep(Size, size, tail[0]) == Fail(InvalidSize);
    }
  }

  // ----- truncated streams -----

  predicate IsEndOfFile(e: Error) {
    e == UnexpectedEof || e == IncompleteBody
  }

  /** More input changes nothing once a verdict other than end of file has been reached. */
  lemma {:induction false} VerdictStable(state: ChunkedState, size: nat, a: seq<byte>, b: seq<byte>)
    requires ValidChunked(state, size)
    ensures var o, p := Scan(state, size, a), Scan(state, size, a + b);
            match o.verdict
            case Complete(rest) => p == Outcome(o.body, Complete(rest + b))
            case Broken(e) => !IsEndOfFile(e) ==> p == o
    decreases |a|
  {
    if state != End && a != [] {
      assert (a + b)[1..] == a[1..] + b;
      if state == Body {
        VerdictStable(if size > 1 then Body else BodyCr, size - 1, a[1..], b);
      } else {
        match ByteStep(state, size, a[0]) {
          case Fail(_) =>
          case Next(s, z) => VerdictStable(s, z, a[1..], b);
        }
      }
    }
  }

  /** A message cut short anywhere is never taken for a complete one, nor for a malformed one. */
  lemma {:induction false} TruncationIsEndOfFile(m: Message, k: nat)
    requires m.Valid() && k < |m.Render()|
    ensures var v := Scan(Size, 0, m.Render()[..k]).verdict; v.Broken? && IsEndOfFile(v.error)
  {
    var a, b := m.Render()[..k], m.Render()[k..];
    assert a + b == m.Render() && m.Render() + [] == m.Render();
    MessageAccepted(m, []);
    VerdictStable(Size, 0, a, b);
  }

  // ----- whole runs -----

  datatype Ending = Finished | Stopped(error: Error) | Unfinished

  lemma NothingLeft(kind: Kind, input: seq<byte>, delivered: seq<byte>)
    requires ValidKind(kind) && AtEof(kind)
    ensures Prepend(delivered, Meaning(kind, input)) == Outcome(delivered, Complete(input))
  {
    assert delivered + [] == delivered;
  }

  /** Poll a decoder any number of times, as `Conn` does, collecting what it delivers. However the
      transport splits and delays its bytes, the delivered bytes and the verdict are those of the
      stream as a whole; nothing is lost, repeated or read beyond the end of the body. */
  method ReadToEnd(kind: Kind, io: Buffered, polls: nat) returns (delivered: seq<byte>, end: Ending)
    requires ValidKind(kind)
    modifies io
    ensures var whole := Meaning(kind, old(io.Input()));
            match end
            case Finished => whole == Outcome(delivered, Complete(io.Input()))
            case Stopped(e) => delivered <= whole.body && (e != Io ==> whole == Outcome(delivered, Broken(e)))
            case Unfinished => delivered <= whole.body
  {
    var decoder := new Decoder(kind);
    delivered := [];
    var i := 0;
    ghost var whole := Meaning(kind, old(io.Input()));
    while i < polls
      invariant decoder.Valid()
      invariant whole == Prepend(delivered, Meaning(decoder.kind, io.Input()))
      invariant delivered <= whole.body
    {
      var r := decoder.Decode(io);
      match r {
        case Pending =>
        case Ready(Err(e)) =>
          return delivered, Stopped(e);
        case Ready(Ok(piece)) =>
          PrependTwice(delivered, piece, Meaning(decoder.kind, io.Input()));
          delivered := delivered + piece;
          if decoder.IsEof() {
            NothingLeft(decoder.kind, io.Input(), delivered);
            return delivered, Finished;
          }
      }
      i := i + 1;
    }
    end := Unfinished;
  }
}
