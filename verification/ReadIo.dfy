/** The read half of `Buffered` (src/proto/h1/io.rs): a transport that delivers its bytes in
    arbitrary pieces, at arbitrary times, and a buffer in front of it. */
module ReadIo {
  import opened Bytes

  /** Nothing but the ends of lines. */
  ghost predicate IsBlank(s: seq<byte>) {
    forall i :: 0 <= i < |s| ==> s[i] == CR || s[i] == LF
  }

  class Buffered {
    /** Bytes taken from the transport and not yet consumed. */
    var readBuf: seq<byte>
    /** Bytes the transport has still to deliver; after them it reports end of file. */
    var wire: seq<byte>
    var readBlocked: bool
    /** The last read failed. */
    ghost var failed: bool

    constructor (wire: seq<byte>)
      ensures readBuf == [] && this.wire == wire && !readBlocked
    {
      this.readBuf, this.wire, this.readBlocked := [], wire, false;
    }

    /** Everything that is still to be consumed from this connection. */
    ghost function Input(): seq<byte>
      reads this
    {
      readBuf + wire
    }

    /** One read from the transport. How many bytes arrive, and whether any do, is up to the
        environment: the only fixed rule is that an empty read means end of file. */
    method PollReadFromIo() returns (r: Poll<Result<nat, ()>>)
      modifies this
      ensures Input() == old(Input())
      ensures !r.Pending? && r.value.Ok? ==>
                && (r.value.value == 0 <==> old(wire) == [])
                && r.value.value <= |old(wire)|
                && readBuf == old(readBuf) + old(wire)[..r.value.value]
      ensures (r.Pending? || r.value.Err?) ==> readBuf == old(readBuf) && wire == old(wire)
      ensures readBlocked == r.Pending? && failed == (r.Ready? && r.value.Err?)
    {
      readBlocked, failed := false, false;
      var outcome: int := *;
      if outcome == 0 {
        readBlocked := true;
        return Pending;
      } else if outcome == 1 {
        failed := true;
        return Ready(Err(()));
      }
      var n: nat :| n <= |wire| && (n == 0 <==> wire == []);
      readBuf, wire := readBuf + wire[..n], wire[n..];
      return Ready(Ok(n));
    }

    /** `consume_leading_lines`: blank lines before a message are dropped. */
    method ConsumeLeadingLines()
      modifies `readBuf
      ensures readBuf != [] ==> readBuf[0] != CR && readBuf[0] != LF
      ensures exists n :: 0 <= n <= |old(readBuf)| && readBuf == old(readBuf)[n..] && IsBlank(old(readBuf)[..n])
    {
      var i := 0;
      while i < |readBuf| && (readBuf[i] == CR || readBuf[i] == LF)
        invariant 0 <= i <= |readBuf| && IsBlank(readBuf[..i])
      {
        assert readBuf[..i + 1] == readBuf[..i] + [readBuf[i]];
        i := i + 1;
      }
      readBuf := readBuf[i..];
    }

    /** `MemRead::read_mem`: at most `len` bytes; empty only for `len == 0` or at end of file. */
    method ReadMem(len: nat) returns (r: Poll<Result<seq<byte>, ()>>)
      modifies this
      ensures (r.Pending? || r.value.Err?) ==> Input() == old(Input())
      ensures (r.Pending? ==> readBlocked) && (r.Ready? && r.value.Err? ==> failed)
      ensures r.Ready? && r.value.Ok? ==>
                var buf := r.value.value;
                && |buf| <= len
                && old(Input()) == buf + Input()
                && (buf == [] <==> (len == 0 || old(Input()) == []))
      ensures old(readBuf) != [] ==>
                r == Ready(Ok(if len <= |old(readBuf)| then old(readBuf)[..len] else old(readBuf)))
    {
      if readBuf != [] {
        var n := if len <= |readBuf| then len else |readBuf|;
        var buf := readBuf[..n];
        assert len > |readBuf| ==> buf == readBuf;
        readBuf := readBuf[n..];
        return Ready(Ok(buf));
      }
      var polled := PollReadFromIo();
      match polled {
        case Pending => return Pending;
        case Ready(Err(e)) => return Ready(Err(e));
        case Ready(Ok(n)) =>
          var m := if len <= n then len else n;
          var buf := readBuf[..m];
          readBuf := readBuf[m..];
          return Ready(Ok(buf));
      }
    }
  }
}
