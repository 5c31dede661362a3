/** The chunked transfer coding that hyper reads and writes (section 4.1 of RFC 7230), as a grammar:
    syntax trees and how they are rendered. Where hyper reads more than the RFC allows, so does this
    grammar: the size may have no digits at all (and is then 0), and a trailer line is any non-empty
    run of bytes without a CR. Nothing here mentions the decoder. */
module ChunkedGrammar {
  import opened Bytes

  const SEMICOLON: byte := 59

  predicate IsHex(b: byte) {
    48 <= b <= 57 || 65 <= b <= 70 || 97 <= b <= 102
  }

  function HexDigit(b: byte): (v: nat)
    requires IsHex(b)
    ensures v < 16
  {
    if b <= 57 then b - 48 else if b <= 70 then b - 55 else b - 87
  }

  predicate AllHex(s: seq<byte>) {
    forall i :: 0 <= i < |s| ==> IsHex(s[i])
  }

  /** The number a string of hexadecimal digits denotes. */
  function HexVal(s: seq<byte>): nat
    requires AllHex(s)
  {
    if s == [] then 0 else HexVal(s[..|s| - 1]) * 16 + HexDigit(s[|s| - 1])
  }

  predicate IsLws(b: byte) {
    b == 9 || b == 32
  }

  predicate AllLws(s: seq<byte>) {
    forall i :: 0 <= i < |s| ==> IsLws(s[i])
  }

  /** A chunk extension: absent, or a semicolon and anything up to the end of the line. */
  predicate IsExtension(s: seq<byte>) {
    s == [] || (s[0] == SEMICOLON && CR !in s && LF !in s)
  }

  datatype SizeLine = SizeLine(digits: seq<byte>, lws: seq<byte>, ext: seq<byte>) {
    predicate Valid() {
      AllHex(digits) && HexVal(digits) < U64 && AllLws(lws) && IsExtension(ext)
    }

    function Render(): seq<byte> {
      digits + lws + ext + CRLF
    }
  }

  datatype Chunk = Chunk(line: SizeLine, data: seq<byte>) {
    predicate Valid() {
      line.Valid() && 0 < |data| == HexVal(line.digits)
    }

    function Render(): seq<byte> {
      line.Render() + data + CRLF
    }
  }

  predicate IsTrailer(t: seq<byte>) {
    t != [] && CR !in t
  }

  function RenderTrailers(ts: seq<seq<byte>>): seq<byte> {
    if ts == [] then CRLF else ts[0] + CRLF + RenderTrailers(ts[1..])
  }

  function RenderChunks(cs: seq<Chunk>): seq<byte> {
    if cs == [] then [] else cs[0].Render() + RenderChunks(cs[1..])
  }

  function PayloadOf(cs: seq<Chunk>): seq<byte> {
    if cs == [] then [] else cs[0].data + PayloadOf(cs[1..])
  }

  datatype Message = Message(chunks: seq<Chunk>, last: SizeLine, trailers: seq<seq<byte>>) {
    predicate Valid() {
      && (forall i :: 0 <= i < |chunks| ==> chunks[i].Valid())
      && last.Valid() && HexVal(last.digits) == 0
      && (forall i :: 0 <= i < |trailers| ==> IsTrailer(trailers[i]))
    }

    function Render(): seq<byte> {
      RenderChunks(chunks) + last.Render() + RenderTrailers(trailers)
    }

    function Payload(): seq<byte> {
      PayloadOf(chunks)
    }
  }

  lemma {:induction false} HexValMonotone(a: seq<byte>, b: seq<byte>)
    requires AllHex(a) && AllHex(b)
    ensures AllHex(a + b) && HexVal(a) <= HexVal(a + b)
    decreases |b|
  {
    if b == [] {
      assert a + b == a;
    } else {
      var c := b[..|b| - 1];
      HexValMonotone(a, c);
      assert (a + b)[..|a + b| - 1] == a + c;
    }
  }
}
