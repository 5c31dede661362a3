/** Encoders and decoders against each other. */
module RoundTrip {
  import opened Bytes
  import opened ChunkedGrammar
  import opened Encode
  import Decode
  import DecodeTheorems
  import ReadIo

  /** The decoder that reads what an encoder of this kind writes. */
  function DecoderFor(kind: Kind): Decode.Kind {
    match kind
    case Chunked => Decode.Chunked(Decode.Size, 0)
    case Length(n) => Decode.Length(n)
    case CloseDelimited => Decode.Eof(false)
  }

  predicate GoodChunks(chunks: seq<seq<byte>>) {
    forall i :: 0 <= i < |chunks| ==> 0 < |chunks[i]| < U64
  }

  function ChunkTree(msg: seq<byte>): Chunk {
    Chunk(SizeLine(UpperHex(|msg|), [], []), msg)
  }

  function Trees(chunks: seq<seq<byte>>): (r: seq<Chunk>)
    ensures |r| == |chunks| && forall i :: 0 <= i < |r| ==> r[i] == ChunkTree(chunks[i])
  {
    seq(|chunks|, i requires 0 <= i < |chunks| => ChunkTree(chunks[i]))
  }

  function WireOf(chunks: seq<seq<byte>>): seq<byte> {
    if chunks == [] then [] else ChunkBytes(chunks[0]) + WireOf(chunks[1..])
  }

  lemma {:induction false} WireAppend(a: seq<seq<byte>>, b: seq<seq<byte>>)
    ensures WireOf(a + b) == WireOf(a) + WireOf(b)
  {
    if a == [] {
      assert a + b == b;
    } else {
      assert (a + b)[1..] == a[1..] + b;
      WireAppend(a[1..], b);
    }
  }

  lemma {:induction false} TreesRender(chunks: seq<seq<byte>>)
    ensures RenderChunks(Trees(chunks)) == WireOf(chunks)
    ensures PayloadOf(Trees(chunks)) == Concat(chunks)
  {
    if chunks != [] {
      TreesRender(chunks[1..]);
      assert Trees(chunks)[1..] == Trees(chunks[1..]);
      var c := ChunkTree(chunks[0]);
      assert c.line.Render() == UpperHex(|chunks[0]|) + CRLF;
      assert c.Render() == ChunkBytes(chunks[0]);
    }
  }

  /** Chunks as the encoder frames them, the last chunk, then anything: the decoder returns the
      chunks joined together and stops exactly at what follows. */
  lemma {:induction false} ChunkedRoundTrip(chunks: seq<seq<byte>>, suffix: seq<byte>)
    requires GoodChunks(chunks)
    ensures Decode.Scan(Decode.Size, 0, WireOf(chunks) + LAST_CHUNK + suffix) ==
            Decode.Outcome(Concat(chunks), Decode.Complete(suffix))
  {
    var last := SizeLine([48], [], []);
    assert HexVal([48]) == HexVal([48][..0]) * 16 + HexDigit(48);
    var m := Message(Trees(chunks), last, []);
    TreesRender(chunks);
    assert last.Render() + RenderTrailers([]) == LAST_CHUNK;
    assert m.Render() == WireOf(chunks) + LAST_CHUNK;
    DecodeTheorems.MessageAccepted(m, suffix);
  }

  /** What a body of these bytes comes to under a given framing: a length cuts it off. */
  function Framed(kind: Kind, body: seq<byte>): seq<byte> {
    if kind.Length? then body[..Min(kind.remaining, |body|)] else body
  }

  /** The wire is a body that its own decoder reads back, stopping where the next message begins. */
  ghost predicate Delimited(kind: Kind, wire: seq<byte>, body: seq<byte>)
    requires kind.Length? ==> kind.remaining < U64
  {
    forall suffix: seq<byte> :: Decode.Meaning(DecoderFor(kind), wire + suffix) == Decode.Outcome(body, Decode.Complete(suffix))
  }

  lemma {:induction false} ChunkedDelimited(chunks: seq<seq<byte>>, wire: seq<byte>)
    requires GoodChunks(chunks) && wire == WireOf(chunks) + LAST_CHUNK
    ensures Delimited(Chunked, wire, Concat(chunks))
  {
    forall suffix: seq<byte>
      ensures Decode.Meaning(DecoderFor(Chunked), wire + suffix) == Decode.Outcome(Concat(chunks), Decode.Complete(suffix))
    {
      ChunkedRoundTrip(chunks, suffix);
    }
  }

  lemma LengthDelimited(n: nat, wire: seq<byte>)
    requires n < U64 && |wire| == n
    ensures Delimited(Length(n), wire, wire)
  {
    forall suffix: seq<byte>
      ensures Decode.Meaning(Decode.Length(n), wire + suffix) == Decode.Outcome(wire, Decode.Complete(suffix))
    {
      assert (wire + suffix)[..n] == wire && (wire + suffix)[n..] == suffix;
    }
  }

  function Opt(last: Option<seq<byte>>): seq<seq<byte>> {
    if last.Some? then [last.value] else []
  }

  /** Buffers go to `encode` one by one until the encoder says it is at its end. */
  method EncodeSome(encoder: Encoder, chunks: seq<seq<byte>>) returns (wire: seq<byte>, i: nat)
    requires GoodChunks(chunks)
    modifies encoder`kind
    ensures i <= |chunks| && (i < |chunks| ==> encoder.kind == Length(0))
    ensures Progress(old(encoder.kind), encoder.kind, wire, chunks[..i])
  {
    wire, i := [], 0;
    while i < |chunks| && !encoder.IsEof()
      invariant 0 <= i <= |chunks|
      invariant Progress(old(encoder.kind), encoder.kind, wire, chunks[..i])
    {
      ghost var before := encoder.kind;
      var buf := encoder.Encode(chunks[i]);
      ProgressStep(old(encoder.kind), before, encoder.kind, wire, chunks[..i], chunks[i], buf.Bytes());
      assert chunks[..i + 1] == chunks[..i] + [chunks[i]];
      wire := wire + buf.Bytes();
      i := i + 1;
    }
  }

  lemma {:induction false} ProgressStep(from: Kind, now: Kind, next: Kind, wire: seq<byte>, done: seq<seq<byte>>, msg: seq<byte>, out: seq<byte>)
    requires Progress(from, now, wire, done) && now != Length(0)
    requires match now
             case Chunked => next == Chunked && out == ChunkBytes(msg)
             case Length(n) => next == Length(n - Min(n, |msg|)) && out == msg[..Min(n, |msg|)]
             case CloseDelimited => next == CloseDelimited && out == msg
    ensures Progress(from, next, wire + out, done + [msg])
  {
    ConcatSnoc(done, msg);
    WireSnoc(done, msg);
  }

  /** A length that has been filled stays as it is, whatever buffers come after. */
  lemma {:induction false} FilledLength(n: nat, wire: seq<byte>, chunks: seq<seq<byte>>, i: nat, last: Option<seq<byte>>)
    requires i <= |chunks| && n < U64 && Progress(Length(n), Length(0), wire, chunks[..i])
    ensures wire == Framed(Length(n), Concat(chunks + Opt(last))) && n <= |Concat(chunks + Opt(last))|
    ensures Delimited(Length(n), wire, wire)
  {
    ConcatAppend(chunks[..i], chunks[i..] + Opt(last));
    assert chunks[..i] + (chunks[i..] + Opt(last)) == chunks + Opt(last);
    LengthDelimited(n, wire);
  }

  lemma {:induction false} EndedWithLast(kind: Kind, now: Kind, wire: seq<byte>, chunks: seq<seq<byte>>, last: seq<byte>, end: seq<byte>)
    requires GoodChunks(chunks + [last]) && (kind.Length? ==> kind.remaining < U64)
    requires Progress(kind, now, wire, chunks) && now != Length(0)
    requires end == match now
                    case Chunked => ChunkBytes(last) + LAST_CHUNK
                    case Length(n) => last[..Min(n, |last|)]
                    case CloseDelimited => last
    ensures var body := Concat(chunks + [last]);
            && (kind.Chunked? ==> Delimited(kind, wire + end, body))
            && (!kind.Chunked? ==> wire + end == Framed(kind, body))
            && (kind.Length? ==> (kind.remaining <= |body| <==> now.remaining <= |last|))
            && (kind.Length? && kind.remaining <= |body| ==> Delimited(kind, wire + end, wire + end))
  {
    if kind.Chunked? {
      ChunkedEndedWithLast(wire, chunks, last, end);
    } else if kind.Length? {
      LengthEndedWithLast(kind.remaining, now.remaining, wire, chunks, last, end);
    } else {
      ConcatSnoc(chunks, last);
    }
  }

  lemma {:induction false} ChunkedEndedWithLast(wire: seq<byte>, chunks: seq<seq<byte>>, last: seq<byte>, end: seq<byte>)
    requires GoodChunks(chunks + [last]) && wire == WireOf(chunks) && end == ChunkBytes(last) + LAST_CHUNK
    ensures Delimited(Chunked, wire + end, Concat(chunks + [last]))
  {
    WireSnoc(chunks, last);
    assert wire + end == wire + ChunkBytes(last) + LAST_CHUNK;
    ChunkedDelimited(chunks + [last], wire + end);
  }

  lemma {:induction false} LengthEndedWithLast(n: nat, owed: nat, wire: seq<byte>, chunks: seq<seq<byte>>, last: seq<byte>, end: seq<byte>)
    requires n < U64 && 0 < owed && |wire| + owed == n && wire == Concat(chunks) && end == last[..Min(owed, |last|)]
    ensures var body := Concat(chunks + [last]);
            && wire + end == Framed(Length(n), body)
            && (n <= |body| <==> owed <= |last|)
            && (n <= |body| ==> Delimited(Length(n), wire + end, wire + end))
  {
    ConcatSnoc(chunks, last);
    if n <= |wire + last| {
      LengthDelimited(n, wire + end);
    }
  }

  /** A whole body through an encoder, as `Conn` drives it: buffers go to `encode`, and the body is
      finished with `encode_and_end` when the final buffer is known to be the last, or with `end`
      after the fact. If the connection may then be used again, the bytes written are exactly one
      delimited body. */
  method EncodeBody(kind: Kind, isLast: bool, chunks: seq<seq<byte>>, last: Option<seq<byte>>)
    returns (wire: seq<byte>, canKeepAlive: bool)
    requires GoodChunks(chunks + Opt(last)) && (kind.Length? ==> 0 < kind.remaining < U64)
    ensures var body := Concat(chunks + Opt(last));
            && (canKeepAlive <==> !isLast && kind != CloseDelimited && (kind.Length? ==> kind.remaining <= |body|))
            && (kind.Chunked? || (kind.Length? && kind.remaining <= |body|) ==> Delimited(kind, wire, Framed(kind, body)))
            && (!kind.Chunked? ==> wire == Framed(kind, body))
  {
    var encoder := new Encoder(kind, isLast);
    assert forall i :: 0 <= i < |chunks| ==> chunks[i] == (chunks + Opt(last))[i];
    var i;
    wire, i := EncodeSome(encoder, chunks);
    if encoder.IsEof() {
      FilledLength(kind.remaining, wire, chunks, i, last);
      return wire, !isLast;
    }
    assert chunks[..i] == chunks;
    if last.Some? {
      assert last.value == (chunks + Opt(last))[|chunks|];
      var buf, ok := encoder.EncodeAndEnd(last.value);
      EndedWithLast(kind, encoder.kind, wire, chunks, last.value, buf.Bytes());
      return wire + buf.Bytes(), ok;
    }
    assert chunks + Opt(last) == chunks;
    var end := encoder.End();
    if end.Ok? && end.value.Some? {
      wire := wire + end.value.value.Bytes();
      ChunkedDelimited(chunks, wire);
    }
    return wire, end.Ok? && !isLast && kind != CloseDelimited;
  }

  /** The wire so far is a run of chunks that add up to the payload: whatever follows it is read as if
      it came first, after the payload. */
  ghost predicate Opened(wire: seq<byte>, payload: seq<byte>) {
    forall tail: seq<byte> ::
      Decode.Scan(Decode.Size, 0, wire + tail) == Decode.Prepend(payload, Decode.Scan(Decode.Size, 0, tail))
  }

  lemma {:induction false} NothingOpened()
    ensures Opened([], [])
  {
    forall tail: seq<byte>
      ensures Decode.Scan(Decode.Size, 0, [] + tail) == Decode.Prepend([], Decode.Scan(Decode.Size, 0, tail))
    {
      assert [] + tail == tail;
      PrependNothing(Decode.Scan(Decode.Size, 0, tail));
    }
  }

  lemma PrependNothing(o: Decode.Outcome)
    ensures Decode.Prepend([], o) == o
  {
    assert [] + o.body == o.body;
  }

  /** One more chunk. */
  lemma {:induction false} OpenedFurther(wire: seq<byte>, payload: seq<byte>, msg: seq<byte>)
    requires Opened(wire, payload) && 0 < |msg| < U64
    ensures Opened(wire + ChunkBytes(msg), payload + msg)
  {
    forall tail: seq<byte>
      ensures Decode.Scan(Decode.Size, 0, wire + ChunkBytes(msg) + tail) ==
              Decode.Prepend(payload + msg, Decode.Scan(Decode.Size, 0, tail))
    {
      assert wire + ChunkBytes(msg) + tail == wire + (ChunkBytes(msg) + tail);
      ReadOneChunk(msg, tail);
      DecodeTheorems.PrependTwice(payload, msg, Decode.Scan(Decode.Size, 0, tail));
    }
  }

  lemma {:induction false} ReadOneChunk(msg: seq<byte>, tail: seq<byte>)
    requires 0 < |msg| < U64
    ensures Decode.Scan(Decode.Size, 0, ChunkBytes(msg) + tail) == Decode.Prepend(msg, Decode.Scan(Decode.Size, 0, tail))
  {
    var c := ChunkTree(msg);
    assert c.line.Render() == UpperHex(|msg|) + CRLF;
    assert c.Render() == ChunkBytes(msg);
    DecodeTheorems.ScanChunk(c, tail);
  }

  /** The last chunk ends the body. */
  lemma {:induction false} OpenedEnds(wire: seq<byte>, payload: seq<byte>)
    requires Opened(wire, payload)
    ensures Delimited(Chunked, wire + LAST_CHUNK, payload)
  {
    forall suffix: seq<byte>
      ensures Decode.Meaning(DecoderFor(Chunked), wire + LAST_CHUNK + suffix) == Decode.Outcome(payload, Decode.Complete(suffix))
    {
      assert wire + LAST_CHUNK + suffix == wire + (LAST_CHUNK + suffix);
      ChunkedRoundTrip([], suffix);
      assert WireOf([]) + LAST_CHUNK + suffix == LAST_CHUNK + suffix;
      assert payload + [] == payload;
    }
  }

  /** Encode a body, send anything after it, and decode it under any schedule: what the decoder delivers
      is always a prefix of the body, and when it finishes it is the whole of it and what follows is
      unread. It never fails but for the transport. After a body that ends with the connection there
      is nothing. */
  method EncodeThenDecode(kind: Kind, isLast: bool, chunks: seq<seq<byte>>, last: Option<seq<byte>>, suffix: seq<byte>, polls: nat)
    returns (delivered: seq<byte>, end: DecodeTheorems.Ending, unread: seq<byte>)
    requires GoodChunks(chunks + Opt(last)) && (kind == CloseDelimited ==> suffix == [])
    requires kind.Length? ==> 0 < kind.remaining < U64 && kind.remaining <= |Concat(chunks + Opt(last))|
    ensures var body := Framed(kind, Concat(chunks + Opt(last)));
            && delivered <= body
            && (end.Finished? ==> delivered == body && unread == suffix)
            && (end.Stopped? ==> end.error == Decode.Io)
  {
    ghost var body := Framed(kind, Concat(chunks + Opt(last)));
    var wire, _ := EncodeBody(kind, isLast, chunks, last);
    assert kind != CloseDelimited ==> Delimited(kind, wire, body);
    var io := new ReadIo.Buffered(wire + suffix);
    assert [] + (wire + suffix) == wire + suffix;
    assert Decode.Meaning(DecoderFor(kind), wire + suffix) == Decode.Outcome(body, Decode.Complete(suffix));
    delivered, end := DecodeTheorems.ReadToEnd(DecoderFor(kind), io, polls);
    unread := io.readBuf + io.wire;
  }

  /** The same for a body that is written at once. */
  method EncodeAtOnceThenDecode(kind: Kind, isLast: bool, msg: seq<byte>, suffix: seq<byte>, polls: nat)
    returns (delivered: seq<byte>, end: DecodeTheorems.Ending, unread: seq<byte>)
    requires 0 < |msg| < U64 && kind != CloseDelimited && (kind.Length? ==> kind.remaining == |msg|)
    ensures delivered <= msg
    ensures end.Finished? ==> delivered == msg && unread == suffix
    ensures end.Stopped? ==> end.error == Decode.Io
  {
    var encoder := new Encoder(kind, isLast);
    var buf := encoder.DangerFullBuf(msg);
    var wire := buf.Bytes();
    FullDelimited(kind, msg, wire);
    var io := new ReadIo.Buffered(wire + suffix);
    assert [] + (wire + suffix) == wire + suffix;
    assert Decode.Meaning(DecoderFor(kind), wire + suffix) == Decode.Outcome(msg, Decode.Complete(suffix));
    delivered, end := DecodeTheorems.ReadToEnd(DecoderFor(kind), io, polls);
    unread := io.readBuf + io.wire;
  }

  lemma {:induction false} WireSnoc(a: seq<seq<byte>>, x: seq<byte>)
    ensures WireOf(a + [x]) == WireOf(a) + ChunkBytes(x)
  {
    WireAppend(a, [x]);
    assert WireOf([x]) == ChunkBytes(x) + WireOf([]);
  }

  /** Where an encoder stands after the buffers in `done`. */
  ghost predicate Progress(from: Kind, now: Kind, wire: seq<byte>, done: seq<seq<byte>>) {
    match from
    case Chunked => now == Chunked && wire == WireOf(done)
    case CloseDelimited => now == CloseDelimited && wire == Concat(done)
    case Length(n) => now.Length? && |wire| + now.remaining == n && wire == Framed(from, Concat(done))
                      && (now.remaining > 0 ==> wire == Concat(done))
  }

  /** `danger_full_buf` frames its one buffer the same way. */
  lemma {:induction false} FullDelimited(kind: Kind, msg: seq<byte>, wire: seq<byte>)
    requires 0 < |msg| < U64 && kind != CloseDelimited && (kind.Length? ==> kind.remaining == |msg|)
    requires wire == if kind == Chunked then ChunkBytes(msg) + LAST_CHUNK else msg
    ensures Delimited(kind, wire, msg) && Concat([msg]) == msg && Framed(kind, msg) == msg
  {
    ConcatSnoc([], msg);
    assert [] + [msg] == [msg];
    if kind == Chunked {
      WireSnoc([], msg);
      ChunkedDelimited([msg], wire);
    } else {
      LengthDelimited(|msg|, wire);
    }
  }
}
