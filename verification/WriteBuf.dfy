/** The write half of `Buffered` (src/proto/h1/io.rs) and the buffer list under it
    (src/common/buf.rs): headers in a cursor, bodies in the same cursor or in a list of buffers,
    written in whatever pieces the transport takes. */
module WriteBuf {
  import opened Bytes

  /** A user buffer: the slices it presents, in order. Some may be empty. */
  type Buf = seq<seq<byte>>

  function Remaining(b: Buf): nat {
    |Concat(b)|
  }

  /** The first slice with anything in it. */
  function Chunk(b: Buf): (r: seq<byte>)
    ensures r <= Concat(b) && (Concat(b) != [] ==> r != [])
  {
    if b == [] then [] else if b[0] != [] then b[0] else Chunk(b[1..])
  }

  function Advanced(b: Buf, cnt: nat): (r: Buf)
    requires cnt <= Remaining(b)
    ensures Concat(r) == Concat(b)[cnt..]
  {
    if b == [] then []
    else if |b[0]| >= cnt then [b[0][cnt..]] + b[1..]
    else Advanced(b[1..], cnt - |b[0]|)
  }

  /** `chunks_vectored` of one buffer into `room` slots: its non-empty slices, as many as fit. */
  function Vectored(b: Buf, room: nat): (r: seq<seq<byte>>)
    ensures |r| <= room && Concat(r) <= Concat(b)
    ensures |r| < room ==> Concat(r) == Concat(b)
    ensures room > 0 && Concat(b) != [] ==> r != [] && r[0] != []
  {
    if b == [] || room == 0 then []
    else if b[0] == [] then Vectored(b[1..], room)
    else
      var rest := Vectored(b[1..], room - 1);
      var r := [b[0]] + rest;
      assert Concat(r) == b[0] + Concat(rest);
      r
  }

  /** The bytes of a list of buffers. */
  function Flat(bufs: seq<Buf>): seq<byte> {
    if bufs == [] then [] else Concat(bufs[0]) + Flat(bufs[1..])
  }

  lemma {:induction false} FlatAppend(a: seq<Buf>, b: seq<Buf>)
    ensures Flat(a + b) == Flat(a) + Flat(b)
  {
    if a == [] {
      assert a + b == b;
    } else {
      assert (a + b)[1..] == a[1..] + b;
      FlatAppend(a[1..], b);
    }
  }

  lemma {:induction false} FlatSnoc(a: seq<Buf>, b: Buf)
    ensures Flat(a + [b]) == Flat(a) + Concat(b)
  {
    FlatAppend(a, [b]);
    assert Flat([b]) == Concat(b) + Flat([]);
  }

  /** Moving the first bytes of what waits to the end of what is done leaves the whole as it was. */
  lemma Moved(done: seq<byte>, offer: seq<byte>, waiting: seq<byte>, n: nat)
    requires offer <= waiting && n <= |offer|
    ensures (done + offer[..n]) + waiting[n..] == done + waiting
    ensures n <= |waiting| && (n < |waiting| <==> waiting[n..] != [])
  {
    assert offer[..n] == waiting[..n];
    assert waiting == waiting[..n] + waiting[n..];
  }

  lemma {:induction false} FlatUpTo(bufs: seq<Buf>, i: nat)
    requires i < |bufs|
    ensures Flat(bufs[..i + 1]) == Flat(bufs[..i]) + Concat(bufs[i])
    ensures Flat(bufs[..i + 1]) <= Flat(bufs)
  {
    FlatSnoc(bufs[..i], bufs[i]);
    assert bufs[..i + 1] == bufs[..i] + [bufs[i]];
    FlatAppend(bufs[..i + 1], bufs[i + 1..]);
    assert bufs == bufs[..i + 1] + bufs[i + 1..];
  }

  lemma OneSlice(x: seq<byte>)
    ensures Concat([x]) == x
  {
    ConcatSnoc([], x);
    assert [] + [x] == [x];
  }

  /** `BufList`. */
  class BufList {
    var bufs: seq<Buf>

    constructor ()
      ensures bufs == []
    {
      bufs := [];
    }

    /** Only buffers with something in them are ever kept. */
    ghost predicate Valid()
      reads this
    {
      forall i :: 0 <= i < |bufs| ==> Concat(bufs[i]) != []
    }

    function Contents(): seq<byte>
      reads this
    {
      Flat(bufs)
    }

    method Push(buf: Buf)
      requires Valid() && Concat(buf) != []
      modifies this
      ensures Valid() && Contents() == old(Contents()) + Concat(buf) && |bufs| == |old(bufs)| + 1
    {
      FlatSnoc(bufs, buf);
      bufs := bufs + [buf];
    }

    method RemainingBytes() returns (r: nat)
      requires Valid()
      ensures r == |Contents()| && (r == 0 <==> bufs == [])
    {
      r := 0;
      var i := 0;
      while i < |bufs|
        invariant 0 <= i <= |bufs| && r == |Flat(bufs[..i])|
        invariant i > 0 ==> r > 0
      {
        FlatUpTo(bufs, i);
        r := r + Remaining(bufs[i]);
        i := i + 1;
      }
      assert bufs[..i] == bufs;
    }

    function FrontChunk(): seq<byte>
      reads this
    {
      if bufs == [] then [] else Chunk(bufs[0])
    }

    method Advance(cnt: nat)
      requires Valid() && cnt <= |Contents()|
      modifies this
      ensures Valid() && Contents() == old(Contents())[cnt..]
    {
      var left: nat := cnt;
      while left > 0
        invariant Valid() && left <= cnt && left <= |Contents()|
        invariant Contents()[left..] == old(Contents())[cnt..]
        decreases left
      {
        var front := bufs[0];
        var rem := Remaining(front);
        assert Contents() == Concat(front) + Flat(bufs[1..]);
        if rem > left {
          var was := bufs;
          bufs := [Advanced(front, left)] + bufs[1..];
          assert bufs[1..] == was[1..];
          return;
        }
        left := left - rem;
        bufs := bufs[1..];
      }
      assert Contents()[0..] == Contents();
    }

    method ChunksVectored(room: nat) returns (iovs: seq<seq<byte>>)
      requires Valid()
      ensures |iovs| <= room && Concat(iovs) <= Contents()
      ensures room > 0 && bufs != [] ==> Concat(iovs) != []
    {
      iovs := [];
      if room == 0 {
        return;
      }
      var i := 0;
      while i < |bufs|
        invariant 0 <= i <= |bufs| && |iovs| < room
        invariant Concat(iovs) == Flat(bufs[..i])
        invariant i > 0 ==> Concat(iovs) != []
      {
        var more := Vectored(bufs[i], room - |iovs|);
        ConcatAppend(iovs, more);
        FlatUpTo(bufs, i);
        assert Concat(more) != [];
        iovs := iovs + more;
        if |iovs| == room {
          assert Concat(iovs) <= Flat(bufs[..i + 1]);
          break;
        }
        i := i + 1;
      }
      if i == |bufs| {
        assert bufs[..i] == bufs;
      }
    }

    /** `copy_to_bytes`: the front buffer alone, part of it, or a copy across several. */
    method CopyToBytes(len: nat) returns (r: seq<byte>)
      requires Valid() && len <= |Contents()|
      modifies this
      ensures Valid() && r == old(Contents())[..len] && Contents() == old(Contents())[len..]
    {
      if bufs != [] && Remaining(bufs[0]) == len {
        r := Concat(bufs[0]);
        bufs := bufs[1..];
      } else if bufs != [] && Remaining(bufs[0]) > len {
        r := Concat(bufs[0])[..len];
        var was := bufs;
        bufs := [Advanced(bufs[0], len)] + bufs[1..];
        assert bufs[1..] == was[1..];
      } else {
        r := CopyAcross(len);
      }
    }

    /** The loop of `put` over `take(len)`: one front slice at a time. */
    method CopyAcross(len: nat) returns (r: seq<byte>)
      requires Valid() && len <= |Contents()|
      modifies this
      ensures Valid() && r == old(Contents())[..len] && Contents() == old(Contents())[len..]
    {
      r := [];
      while |r| < len
        invariant Valid() && |r| <= len && len - |r| <= |Contents()|
        invariant r + Contents() == old(Contents())
      {
        var chunk := FrontChunk();
        assert chunk <= Contents() && chunk != [];
        var n := if |chunk| < len - |r| then |chunk| else len - |r|;
        Moved(r, chunk, Contents(), n);
        r := r + chunk[..n];
        Advance(n);
      }
    }
  }

  /** `Cursor<Vec<u8>>`. */
  class Cursor {
    var bytes: seq<byte>
    var pos: nat
    var capacity: nat

    constructor (capacity: nat)
      ensures Valid() && Contents() == []
    {
      bytes, pos, this.capacity := [], 0, capacity;
    }

    ghost predicate Valid()
      reads this
    {
      pos <= |bytes| <= capacity
    }

    function Contents(): seq<byte>
      requires Valid()
      reads this
    {
      bytes[pos..]
    }

    /** `maybe_unshift`: make room by forgetting what has been read, if that is needed. */
    method MaybeUnshift(additional: nat)
      requires Valid()
      modifies this
      ensures Valid() && Contents() == old(Contents())
      ensures pos == 0 || capacity - |bytes| >= additional
    {
      if pos == 0 {
        return;
      }
      if capacity - |bytes| >= additional {
        return;
      }
      bytes := bytes[pos..];
      pos := 0;
    }

    method Extend(slice: seq<byte>)
      requires Valid()
      modifies this
      ensures Valid() && Contents() == old(Contents()) + slice
    {
      bytes := bytes + slice;
      if |bytes| > capacity {
        var grown: nat :| grown >= |bytes|;
        capacity := grown;
      }
    }

    method Reset()
      requires Valid()
      modifies this
      ensures Valid() && Contents() == []
    {
      pos, bytes := 0, [];
    }

    method Advance(cnt: nat)
      requires Valid() && cnt <= |Contents()|
      modifies this
      ensures Valid() && Contents() == old(Contents())[cnt..]
    {
      pos := pos + cnt;
    }
  }

  datatype Strategy = Flatten | Queue

  const MAX_BUF_LIST_BUFFERS: nat := 16
  const MAX_WRITEV_BUFS: nat := 64

  /** `WriteBuf`: one FIFO of bytes in two places. */
  class WriteBuf {
    const headers: Cursor
    const queue: BufList
    const strategy: Strategy
    const maxBufSize: nat

    constructor (strategy: Strategy, maxBufSize: nat)
      ensures Valid() && Pending() == [] && fresh(headers) && fresh(queue) && this.strategy == strategy
    {
      headers := new Cursor(8192);
      queue := new BufList();
      this.strategy, this.maxBufSize := strategy, maxBufSize;
    }

    ghost predicate Valid()
      reads headers, queue
    {
      headers.Valid() && queue.Valid() && (strategy == Flatten ==> queue.bufs == [])
    }

    /** The bytes waiting to be written, oldest first. */
    function Pending(): seq<byte>
      requires Valid()
      reads headers, queue
    {
      headers.Contents() + queue.Contents()
    }

    method RemainingBytes() returns (r: nat)
      requires Valid()
      ensures r == |Pending()|
    {
      var q := queue.RemainingBytes();
      r := |headers.Contents()| + q;
    }

    method CanBuffer() returns (r: bool)
      requires Valid()
      ensures r <==> |Pending()| < maxBufSize && (strategy == Queue ==> |queue.bufs| < 16)
    {
      var rem := RemainingBytes();
      match strategy {
        case Flatten => return rem < maxBufSize;
        case Queue => return |queue.bufs| < MAX_BUF_LIST_BUFFERS && rem < maxBufSize;
      }
    }

    /** Bytes of a message head. The code asserts that no body is waiting behind the cursor. */
    method AppendHeaders(bytes: seq<byte>)
      requires Valid() && queue.bufs == []
      modifies headers
      ensures Valid() && Pending() == old(Pending()) + bytes
    {
      headers.Extend(bytes);
    }

    /** `buffer`: part of a body. */
    method Buffer(buf: Buf)
      requires Valid() && Concat(buf) != []
      modifies headers, queue
      ensures Valid() && Pending() == old(Pending()) + Concat(buf)
      ensures strategy == Queue ==> headers.Contents() == old(headers.Contents())
    {
      match strategy {
        case Flatten =>
          headers.MaybeUnshift(Remaining(buf));
          CopyIn(buf);
        case Queue =>
          queue.Push(buf);
      }
    }

    /** Copy a buffer behind the headers, slice by slice. */
    method CopyIn(buf: Buf)
      requires headers.Valid()
      modifies headers
      ensures headers.Valid() && headers.Contents() == old(headers.Contents()) + Concat(buf)
    {
      var rest := buf;
      while true
        invariant headers.Valid()
        invariant headers.Contents() + Concat(rest) == old(headers.Contents()) + Concat(buf)
        decreases |Concat(rest)|
      {
        var slice := Chunk(rest);
        if slice == [] {
          return;
        }
        headers.Extend(slice);
        rest := Advanced(rest, |slice|);
      }
    }

    method Advance(cnt: nat)
      requires Valid() && cnt <= |Pending()|
      modifies headers, queue
      ensures Valid() && Pending() == old(Pending())[cnt..]
      ensures QueueOnlyShrinks(old(queue.bufs), queue.bufs, Pending())
    {
      var hrem := |headers.Contents()|;
      if hrem == cnt {
        headers.Reset();
      } else if hrem > cnt {
        headers.Advance(cnt);
      } else {
        headers.Reset();
        queue.Advance(cnt - hrem);
      }
    }

    method ChunksVectored(room: nat) returns (iovs: seq<seq<byte>>)
      requires Valid() && room > 0
      ensures |iovs| <= room && Concat(iovs) <= Pending()
      ensures Pending() != [] ==> Concat(iovs) != []
    {
      var head := if headers.Contents() == [] then [] else [headers.Contents()];
      assert Concat(head) == headers.Contents() by {
        if head != [] { ConcatSnoc([], headers.Contents()); assert head == [] + [headers.Contents()]; }
      }
      var more := queue.ChunksVectored(room - |head|);
      ConcatAppend(head, more);
      iovs := head + more;
    }
  }

  /** Writing never queues anything, and empties the queue only by writing everything. */
  ghost predicate QueueOnlyShrinks(before: seq<Buf>, after: seq<Buf>, pending: seq<byte>) {
    && (before == [] ==> after == [])
    && (before != [] && after == [] ==> pending == [])
  }

  /** What the transport can answer to a write and to a flush. */
  datatype Answer = Wrote(n: nat) | WriteBlocked | WriteFailed | Flushed | FlushBlocked | FlushFailed

  /** The transport: what it has taken so far, how often it was asked, and its last answer. */
  class Transport {
    var sent: seq<byte>
    var asked: nat
    var answer: Answer

    constructor ()
      ensures sent == [] && asked == 0
    {
      sent, asked, answer := [], 0, Flushed;
    }

    /** `poll_write_vectored`: takes some prefix of what it is offered, or nothing yet, or fails. */
    method PollWriteVectored(iovs: seq<seq<byte>>) returns (r: Poll<Result<nat, ()>>)
      modifies this
      ensures asked == old(asked) + 1
      ensures answer == if r.Pending? then WriteBlocked else if r.value.Err? then WriteFailed else Wrote(r.value.value)
      ensures r.Pending? || r.value.Err? ==> sent == old(sent)
      ensures r.Ready? && r.value.Ok? ==>
                r.value.value <= |Concat(iovs)| && sent == old(sent) + Concat(iovs)[..r.value.value]
    {
      asked := asked + 1;
      var outcome: int := *;
      if outcome == 0 {
        answer := WriteBlocked;
        return Pending;
      } else if outcome == 1 {
        answer := WriteFailed;
        return Ready(Err(()));
      }
      var n: nat :| n <= |Concat(iovs)|;
      sent, answer := sent + Concat(iovs)[..n], Wrote(n);
      return Ready(Ok(n));
    }

    /** `poll_flush` of the transport. */
    method PollFlush() returns (r: Poll<Result<(), ()>>)
      modifies `asked, `answer
      ensures asked == old(asked) + 1
      ensures answer == if r.Pending? then FlushBlocked else if r.value.Err? then FlushFailed else Flushed
    {
      asked := asked + 1;
      var outcome: int := *;
      if outcome == 0 {
        answer := FlushBlocked;
        return Pending;
      } else if outcome == 1 {
        answer := FlushFailed;
        return Ready(Err(()));
      }
      answer := Flushed;
      return Ready(Ok(()));
    }
  }

  datatype FlushError = Io | WriteZero

  /** How a flush ends, by the last answer of the transport and whether anything still waits: writing
      stops only when the transport is blocked, fails, or takes nothing of what waits, and the transport
      is flushed only when nothing waits any more. */
  ghost predicate EndsWith(r: Poll<Result<(), FlushError>>, answer: Answer, waits: bool) {
    match answer
    case Wrote(n) => n == 0 && waits && r == Ready(Err(WriteZero))
    case WriteBlocked => r == Pending
    case WriteFailed => r == Ready(Err(Io))
    case FlushBlocked => r == Pending && !waits
    case FlushFailed => r == Ready(Err(Io)) && !waits
    case Flushed => r == Ready(Ok(())) && !waits
  }

  /** The write half of `Buffered`. */
  class Writer {
    const io: Transport
    const writeBuf: WriteBuf
    const flushPipeline: bool

    constructor (strategy: Strategy, maxBufSize: nat, flushPipeline: bool)
      requires flushPipeline ==> strategy == Flatten
      ensures Valid() && Everything() == [] && writeBuf.strategy == strategy && this.flushPipeline == flushPipeline
      ensures fresh(io) && fresh(writeBuf.headers) && fresh(writeBuf.queue)
    {
      io := new Transport();
      writeBuf := new WriteBuf(strategy, maxBufSize);
      this.flushPipeline := flushPipeline;
    }

    ghost predicate Valid()
      reads writeBuf.headers, writeBuf.queue
    {
      writeBuf.Valid()
    }

    /** Every byte ever given to the writer, in order: those sent, then those still waiting. */
    ghost function Everything(): seq<byte>
      requires Valid()
      reads io, writeBuf.headers, writeBuf.queue
    {
      io.sent + writeBuf.Pending()
    }

    method CanHeadersBuf() returns (r: bool)
      requires Valid()
      ensures r <==> writeBuf.queue.bufs == []
    {
      var rem := writeBuf.queue.RemainingBytes();
      return rem == 0;
    }

    /** `poll_flush`: write until nothing waits or the transport stops taking. */
    method PollFlush(readBufEmpty: bool) returns (r: Poll<Result<(), FlushError>>)
      requires Valid()
      modifies io, writeBuf.headers, writeBuf.queue
      ensures Valid() && Everything() == old(Everything())
      ensures old(io.sent) <= io.sent
      ensures r == Ready(Ok(())) && (!flushPipeline || readBufEmpty) ==> writeBuf.Pending() == []
      ensures if flushPipeline && !readBufEmpty then r == Ready(Ok(())) && io.sent == old(io.sent) && io.asked == old(io.asked)
              else EndsWith(r, io.answer, writeBuf.Pending() != []) && io.asked > old(io.asked)
      ensures QueueOnlyShrinks(old(writeBuf.queue.bufs), writeBuf.queue.bufs, writeBuf.Pending())
    {
      if flushPipeline && !readBufEmpty {
        return Ready(Ok(()));
      }
      var remaining := writeBuf.RemainingBytes();
      if remaining == 0 {
        r := PollFlushIo();
        return;
      }
      if writeBuf.strategy == Flatten {
        r := PollFlushFlattened();
        return;
      }
      r := PollFlushQueue();
    }

    /** The loop of `poll_flush` over the queue strategy. */
    method PollFlushQueue() returns (r: Poll<Result<(), FlushError>>)
      requires Valid() && writeBuf.Pending() != []
      modifies io, writeBuf.headers, writeBuf.queue
      ensures Valid() && Everything() == old(Everything())
      ensures old(io.sent) <= io.sent
      ensures r == Ready(Ok(())) ==> writeBuf.Pending() == []
      ensures EndsWith(r, io.answer, writeBuf.Pending() != []) && io.asked > old(io.asked)
      ensures QueueOnlyShrinks(old(writeBuf.queue.bufs), writeBuf.queue.bufs, writeBuf.Pending())
    {
      while true
        invariant io.asked >= old(io.asked)
        invariant Valid() && Everything() == old(Everything()) && old(io.sent) <= io.sent
        invariant writeBuf.Pending() != []
        invariant QueueOnlyShrinks(old(writeBuf.queue.bufs), writeBuf.queue.bufs, writeBuf.Pending())
        decreases |writeBuf.Pending()|
      {
        var iovs := writeBuf.ChunksVectored(MAX_WRITEV_BUFS);
        ghost var sent := io.sent;
        var wrote := io.PollWriteVectored(iovs);
        match wrote {
          case Pending => return Pending;
          case Ready(Err(_)) => return Ready(Err(Io));
          case Ready(Ok(n)) =>
            Moved(sent, Concat(iovs), writeBuf.Pending(), n);
            writeBuf.Advance(n);
            var remaining := writeBuf.RemainingBytes();
            if remaining == 0 {
              break;
            } else if n == 0 {
              return Ready(Err(WriteZero));
            }
        }
      }
      r := PollFlushIo();
    }

    /** `poll_flush_flattened`: the same when everything is in the cursor. */
    method PollFlushFlattened() returns (r: Poll<Result<(), FlushError>>)
      requires Valid() && writeBuf.strategy == Flatten
      modifies io, writeBuf.headers
      ensures Valid() && Everything() == old(Everything())
      ensures old(io.sent) <= io.sent
      ensures r == Ready(Ok(())) ==> writeBuf.Pending() == []
      ensures EndsWith(r, io.answer, writeBuf.Pending() != []) && io.asked > old(io.asked)
    {
      ghost var all := io.sent + writeBuf.headers.Contents();
      assert all == Everything();
      while true
        invariant writeBuf.headers.Valid() && io.sent + writeBuf.headers.Contents() == all && old(io.sent) <= io.sent
        invariant io.asked >= old(io.asked)
        decreases |writeBuf.headers.Contents()|
      {
        var n := WriteSome();
        if n.Err? {
          return n.error;
        }
        if |writeBuf.headers.Contents()| == 0 {
          writeBuf.headers.Reset();
          break;
        } else if n.value == 0 {
          return Ready(Err(WriteZero));
        }
      }
      r := PollFlushIo();
    }

    /** One write from the cursor. */
    method WriteSome() returns (n: Result<nat, Poll<Result<(), FlushError>>>)
      requires writeBuf.headers.Valid()
      modifies io, writeBuf.headers
      ensures writeBuf.headers.Valid() && old(io.sent) <= io.sent
      ensures io.sent + writeBuf.headers.Contents() == old(io.sent) + old(writeBuf.headers.Contents())
      ensures n.Ok? ==> |writeBuf.headers.Contents()| == |old(writeBuf.headers.Contents())| - n.value
      ensures io.asked > old(io.asked)
      ensures if n.Ok? then io.answer == Wrote(n.value)
              else io.answer == if n.error == Pending then WriteBlocked else WriteFailed
      ensures n.Err? ==> n.error in {Pending, Ready(Err(Io))}
    {
      ghost var waiting := writeBuf.headers.Contents();
      OneSlice(waiting);
      var wrote := io.PollWriteVectored([writeBuf.headers.Contents()]);
      match wrote {
        case Pending => return Err(Pending);
        case Ready(Err(_)) => return Err(Ready(Err(Io)));
        case Ready(Ok(k)) =>
          Moved(old(io.sent), waiting, waiting, k);
          writeBuf.headers.Advance(k);
          return Ok(k);
      }
    }

    /** Nothing waits: the transport itself is flushed. */
    method PollFlushIo() returns (r: Poll<Result<(), FlushError>>)
      modifies io`asked, io`answer
      ensures EndsWith(r, io.answer, false) && !io.answer.Wrote? && io.asked > old(io.asked)
    {
      var flushed := io.PollFlush();
      match flushed
      case Pending => return Pending;
      case Ready(Err(_)) => return Ready(Err(Io));
      case Ready(Ok(_)) => return Ready(Ok(()));
    }
  }

  datatype Op = Headers(bytes: seq<byte>) | Body(buf: Buf) | Flush(readBufEmpty: bool)

  /** Any run of a writer, under either strategy and against any transport: what has been sent,
      followed by what is waiting, is the bytes of every operation that was taken, in order. A head is
      refused exactly while a writer that queues bodies has part of one waiting; nothing else ever is.
      `progress` says how much had been sent before each operation and at the end. Buffers are never
      empty. */
  method Run(strategy: Strategy, maxBufSize: nat, flushPipeline: bool, ops: seq<Op>)
    returns (taken: seq<bool>, flushed: seq<bool>, progress: seq<nat>, sent: seq<byte>, pending: seq<byte>)
    requires flushPipeline ==> strategy == Flatten
    requires forall i :: 0 <= i < |ops| && ops[i].Body? ==> Concat(ops[i].buf) != []
    ensures |taken| == |flushed| == |ops| && |progress| == |ops| + 1
    ensures sent + pending == TakenBytes(ops, taken) && progress[|ops|] == |sent|
    ensures Traced(strategy, flushPipeline, ops, taken, flushed, progress)
  {
    var w := new Writer(strategy, maxBufSize, flushPipeline);
    taken, flushed, progress := [], [], [0];
    var past: seq<Op> := [];
    for i := 0 to |ops|
      invariant w.writeBuf.strategy == strategy && w.flushPipeline == flushPipeline && past == ops[..i]
      invariant |taken| == |flushed| == |past| && |progress| == |past| + 1 && progress[|past|] == |w.io.sent|
      invariant UpTo(w, past, taken) && Traced(strategy, flushPipeline, past, taken, flushed, progress)
      invariant fresh(w.io) && fresh(w.writeBuf.headers) && fresh(w.writeBuf.queue)
    {
      taken, flushed, progress := Next(w, past, taken, flushed, progress, ops[i]);
      past := past + [ops[i]];
    }
    assert past == ops;
    sent, pending := w.io.sent, w.writeBuf.Pending();
  }

  method Next(w: Writer, past: seq<Op>, taken: seq<bool>, flushed: seq<bool>, progress: seq<nat>, op: Op)
    returns (taken': seq<bool>, flushed': seq<bool>, progress': seq<nat>)
    requires |taken| == |flushed| == |past| && |progress| == |past| + 1 && progress[|past|] == |w.io.sent|
    requires UpTo(w, past, taken) && (op.Body? ==> Concat(op.buf) != [])
    requires Traced(w.writeBuf.strategy, w.flushPipeline, past, taken, flushed, progress)
    modifies w.io, w.writeBuf.headers, w.writeBuf.queue
    ensures |taken'| == |flushed'| == |past| + 1 && |progress'| == |past| + 2 && progress'[|past| + 1] == |w.io.sent|
    ensures UpTo(w, past + [op], taken')
    ensures Traced(w.writeBuf.strategy, w.flushPipeline, past + [op], taken', flushed', progress')
  {
    var done, ok := ApplyNext(w, past, taken, op);
    TracedSnoc(w.writeBuf.strategy, w.flushPipeline, past, taken, flushed, progress, op, done, ok, |w.io.sent|);
    taken', flushed', progress' := taken + [done], flushed + [ok], progress + [|w.io.sent|];
  }

  /** The writer stands where the operations that were taken have brought it. */
  ghost predicate UpTo(w: Writer, ops: seq<Op>, taken: seq<bool>)
    requires |taken| == |ops|
    reads w.io, w.writeBuf.headers, w.writeBuf.queue
  {
    && w.Valid() && w.Everything() == TakenBytes(ops, taken)
    && BodiesAhead(w.writeBuf.strategy, w.writeBuf.queue.bufs, |w.io.sent|, BodyEnd(ops, taken), |w.Everything()|)
  }

  method ApplyNext(w: Writer, ops: seq<Op>, taken: seq<bool>, op: Op) returns (done: bool, ok: bool)
    requires |taken| == |ops| && UpTo(w, ops, taken) && (op.Body? ==> Concat(op.buf) != [])
    modifies w.io, w.writeBuf.headers, w.writeBuf.queue
    ensures UpTo(w, ops + [op], taken + [done])
    ensures StepOk(w.writeBuf.strategy, w.flushPipeline, op, done, ok, |old(w.io.sent)|, |w.io.sent|, BodyEnd(ops, taken),
                   |TakenBytes(ops + [op], taken + [done])|)
  {
    done, ok := Apply(w, op);
    TakenSnoc(ops, taken, op, done);
  }

  /** An operation is taken unless it is a head, bodies are queued, and the last body before it, which
      ends at `bodyEnd`, has not been sent to its end. */
  predicate Acceptable(strategy: Strategy, op: Op, sent: nat, bodyEnd: nat) {
    !(op.Headers? && strategy == Queue && sent < bodyEnd)
  }

  /** One operation: whether it is taken, and what it does to the number of bytes sent. Only a flush
      sends; one that is put off sends nothing; any other that succeeds has sent everything. */
  predicate StepOk(strategy: Strategy, flushPipeline: bool, op: Op, done: bool, ok: bool, before: nat, after: nat, bodyEnd: nat, all: nat) {
    && (done <==> Acceptable(strategy, op, before, bodyEnd))
    && before <= after
    && (!op.Flush? ==> after == before && !ok)
    && (op.Flush? && flushPipeline && !op.readBufEmpty ==> after == before && ok)
    && (op.Flush? && ok && !(flushPipeline && !op.readBufEmpty) ==> after == all)
  }

  ghost predicate Traced(strategy: Strategy, flushPipeline: bool, ops: seq<Op>, taken: seq<bool>, flushed: seq<bool>, progress: seq<nat>)
    requires |taken| == |flushed| == |ops| && |progress| == |ops| + 1
  {
    && progress[0] == 0
    && forall i :: 0 <= i < |ops| ==>
         StepOk(strategy, flushPipeline, ops[i], taken[i], flushed[i], progress[i], progress[i + 1],
                BodyEnd(ops[..i], taken[..i]), |TakenBytes(ops[..i + 1], taken[..i + 1])|)
  }

  /** Where the last body that was taken ends, among all bytes taken; 0 if there was none. */
  function BodyEnd(ops: seq<Op>, taken: seq<bool>): nat
    requires |taken| == |ops|
  {
    if ops == [] then 0
    else
      var last := |ops| - 1;
      if taken[last] && ops[last].Body? then |TakenBytes(ops, taken)| else BodyEnd(ops[..last], taken[..last])
  }

  /** In a queueing writer a queued body is the last of everything; without one all bodies are gone. */
  ghost predicate BodiesAhead(strategy: Strategy, bufs: seq<Buf>, sent: nat, bodyEnd: nat, all: nat) {
    strategy == Queue ==> if bufs != [] then bodyEnd == all && sent < all else bodyEnd <= sent
  }

  lemma {:induction false} TracedSnoc(strategy: Strategy, flushPipeline: bool, ops: seq<Op>, taken: seq<bool>, flushed: seq<bool>,
                                      progress: seq<nat>, op: Op, done: bool, ok: bool, after: nat)
    requires |taken| == |flushed| == |ops| && |progress| == |ops| + 1
    requires Traced(strategy, flushPipeline, ops, taken, flushed, progress)
    requires StepOk(strategy, flushPipeline, op, done, ok, progress[|ops|], after, BodyEnd(ops, taken),
                    |TakenBytes(ops + [op], taken + [done])|)
    ensures Traced(strategy, flushPipeline, ops + [op], taken + [done], flushed + [ok], progress + [after])
  {
    var o, t, f, p := ops + [op], taken + [done], flushed + [ok], progress + [after];
    forall i | 0 <= i < |o|
      ensures StepOk(strategy, flushPipeline, o[i], t[i], f[i], p[i], p[i + 1],
                     BodyEnd(o[..i], t[..i]), |TakenBytes(o[..i + 1], t[..i + 1])|)
    {
      if i < |ops| {
        assert o[..i] == ops[..i] && t[..i] == taken[..i];
        assert o[..i + 1] == ops[..i + 1] && t[..i + 1] == taken[..i + 1];
        assert p[i] == progress[i] && p[i + 1] == progress[i + 1];
      } else {
        assert o[..i] == ops && t[..i] == taken;
        assert o[..i + 1] == o && t[..i + 1] == t;
      }
    }
  }

  /** One operation; a head is refused while a body is queued. */
  method Apply(w: Writer, op: Op) returns (done: bool, ok: bool)
    requires w.Valid() && (op.Body? ==> Concat(op.buf) != [])
    modifies w.io, w.writeBuf.headers, w.writeBuf.queue
    ensures w.Valid() && w.Everything() == old(w.Everything()) + if done then OpBytes(op) else []
    ensures !done <==> op.Headers? && old(w.writeBuf.queue.bufs) != []
    ensures old(w.io.sent) <= w.io.sent && (!op.Flush? ==> w.io.sent == old(w.io.sent))
    ensures op.Headers? ==> w.writeBuf.queue.bufs == old(w.writeBuf.queue.bufs)
    ensures op.Body? && w.writeBuf.strategy == Queue ==> w.writeBuf.queue.bufs != []
    ensures op.Flush? ==> QueueOnlyShrinks(old(w.writeBuf.queue.bufs), w.writeBuf.queue.bufs, w.writeBuf.Pending())
    ensures !op.Flush? ==> !ok
    ensures op.Flush? && w.flushPipeline && !op.readBufEmpty ==> ok && w.io.sent == old(w.io.sent)
    ensures op.Flush? && ok && !(w.flushPipeline && !op.readBufEmpty) ==> w.writeBuf.Pending() == []
  {
    done, ok := true, false;
    match op {
      case Headers(bytes) =>
        done := w.CanHeadersBuf();
        if done {
          w.writeBuf.AppendHeaders(bytes);
        }
      case Body(buf) =>
        w.writeBuf.Buffer(buf);
      case Flush(empty) =>
        var r := w.PollFlush(empty);
        ok := r == Ready(Ok(()));
    }
  }

  function OpBytes(op: Op): seq<byte> {
    match op
    case Headers(bytes) => bytes
    case Body(buf) => Concat(buf)
    case Flush(_) => []
  }

  /** The bytes of the operations that were taken, in order. */
  function TakenBytes(ops: seq<Op>, taken: seq<bool>): seq<byte>
    requires |taken| == |ops|
  {
    if ops == [] then []
    else
      var last := |ops| - 1;
      TakenBytes(ops[..last], taken[..last]) + if taken[last] then OpBytes(ops[last]) else []
  }

  lemma {:induction false} TakenSnoc(ops: seq<Op>, taken: seq<bool>, op: Op, done: bool)
    requires |taken| == |ops|
    ensures TakenBytes(ops + [op], taken + [done]) == TakenBytes(ops, taken) + if done then OpBytes(op) else []
    ensures BodyEnd(ops + [op], taken + [done]) ==
            if done && op.Body? then |TakenBytes(ops + [op], taken + [done])| else BodyEnd(ops, taken)
  {
    assert (ops + [op])[..|ops|] == ops && (taken + [done])[..|taken|] == taken;
  }
}
