/** The body of a message with a known length, on its way from the decoder through a channel to the
    user (src/body/body.rs, src/proto/h1/dispatch.rs). */
module BodyChannel {
  import opened Bytes
  import opened ReadIo
  import opened Length
  import D = Decode

  datatype Item = Data(chunk: seq<byte>) | Failure

  datatype Polled = Waiting | Chunk(data: seq<byte>) | Failed | Finished

  /** The bytes in a channel. */
  ghost function InTransit(queue: seq<Item>): seq<byte> {
    if queue == [] then []
    else (if queue[0].Data? then queue[0].chunk else []) + InTransit(queue[1..])
  }

  lemma {:induction false} InTransitSnoc(queue: seq<Item>, item: Item)
    ensures InTransit(queue + [item]) == InTransit(queue) + if item.Data? then item.chunk else []
  {
    if queue == [] {
      assert queue + [item] == [item];
      assert [item][1..] == [];
    } else {
      assert (queue + [item])[1..] == queue[1..] + [item];
      InTransitSnoc(queue[1..], item);
    }
  }

  class Channel {
    const decoder: D.Decoder
    const io: Buffered
    /** Chunks and errors sent and not yet received. */
    var queue: seq<Item>
    /** The dispatcher still has the sending half. */
    var sending: bool
    /** The user still has the body. */
    var receiving: bool
    /** What the body says is still to come. */
    var contentLength: DecodedLength
    ghost var received: seq<byte>
    /** The user has been told of a failure. */
    ghost var told: bool
    /** The sending half went away, without a word, before the decoder was at its end. */
    ghost var cut: bool
    ghost const announced: nat
    ghost const wire: seq<byte>

    /** `new_channel`, for a head with an exact length that is not zero. Some of the body may have been
        read together with the head. */
    constructor (length: DecodedLength, buffered: seq<byte>, coming: seq<byte>)
      requires length.IsExact() && length != ZERO
      ensures Valid() && fresh(decoder) && fresh(io) && announced == length.len && wire == buffered + coming
      ensures received == [] && queue == [] && !told && !cut && sending && receiving
      ensures io.readBuf == buffered && decoder.kind == D.Length(length.len)
    {
      decoder := new D.Decoder(D.Length(length.len));
      io := new Buffered(coming);
      queue, sending, receiving := [], true, true;
      contentLength := length;
      received, told, cut, announced, wire := [], false, false, length.len, buffered + coming;
      new;
      io.readBuf := buffered;
      assert [] + wire == wire;
    }

    /** Every byte read is with the user, in the channel or still to be read, in order; and each of the
        three counts agrees with that. */
    ghost predicate Valid()
      reads this, decoder, io
    {
      && decoder.Valid() && decoder.kind.Length?
      && contentLength.IsExact() && announced <= MAX_LEN
      && contentLength.len == announced - |received|
      && (receiving ==>
            && received + InTransit(queue) + io.Input() == wire
            && decoder.kind.remaining + |InTransit(queue)| + |received| == announced
            && (cut || told || Failure in queue ==> !sending && decoder.kind.remaining > 0)
            && !(cut && (told || Failure in queue))
            && (!sending && decoder.kind.remaining > 0 ==> cut || told || Failure in queue))
      && received <= wire
    }

    /** One turn of the dispatcher on this body, when the user has asked for more. */
    method Feed()
      requires Valid() && sending
      modifies `queue, `sending, decoder, io
      ensures Valid() && old(queue) <= queue && |queue| <= |old(queue)| + 1
      ensures receiving && old(decoder.kind).remaining > 0 && old(io.readBuf) != [] ==>
                var buf, n := old(io.readBuf), old(decoder.kind).remaining;
                sending && queue == old(queue) + [Data(if n <= |buf| then buf[..n] else buf)]
      // At the end of the body the sender lets go; before, only for a failure that the user is told of.
      ensures old(decoder.kind).remaining == 0 ==> !sending && queue == old(queue)
      ensures receiving && old(decoder.kind).remaining > 0 ==>
                if sending then queue != old(queue) || io.readBlocked else queue == old(queue) + [Failure]
      ensures !receiving && sending ==> io.readBlocked
    {
      if decoder.IsEof() {
        sending := false;
        return;
      }
      var r := decoder.Decode(io);
      match r
      case Pending =>
      case Ready(Err(_)) =>
        if receiving {
          InTransitSnoc(queue, Failure);
          queue := queue + [Failure];
        }
        sending := false;
      case Ready(Ok(chunk)) =>
        if !receiving || chunk == [] {
          sending := false;
          return;
        }
        InTransitSnoc(queue, Data(chunk));
        Moved(received, InTransit(queue), chunk, io.Input());
        queue := queue + [Data(chunk)];
    }

    /** The dispatcher goes away, or lets go of the body, at any moment: an error on the connection, a
        shutdown, a read side that was closed. Nothing is sent, and nothing happens to what was. */
    method DropSender() returns (early: bool)
      requires Valid() && sending
      modifies `sending, `cut
      ensures Valid() && !sending && cut == (old(cut) || early) && (early <==> decoder.kind.remaining > 0)
    {
      early := !decoder.IsEof();
      sending := false;
      cut := cut || early;
    }

    /** `poll_inner`. The subtraction cannot go below zero, because everything received was announced.
        The end comes after fewer bytes exactly if the user was told of a failure or, without a word,
        the sending half went away before the decoder was at its end. */
    method PollInner() returns (r: Polled)
      requires Valid() && receiving
      modifies `queue, `contentLength, `received, `told
      ensures Valid() && (r.Waiting? ==> sending) && (r.Finished? ==> !sending && queue == [])
      ensures r.Finished? ==> (|received| < announced <==> told || cut) && !(told && cut)
      ensures if old(queue) == [] then r == (if sending then Waiting else Finished)
              else r == (if old(queue)[0].Data? then Chunk(old(queue)[0].chunk) else Failed) && queue == old(queue)[1..]
      ensures told == (old(told) || r.Failed?)
      ensures r.Chunk? ==> received == old(received) + r.data && contentLength.len == old(contentLength.len) - |r.data|
      ensures !r.Chunk? ==> received == old(received) && contentLength == old(contentLength)
    {
      if queue == [] {
        return if sending then Waiting else Finished;
      }
      var item := queue[0];
      ghost var rest := InTransit(queue[1..]);
      queue := queue[1..];
      match item
      case Failure =>
        assert [] + rest == rest;
        told := true;
        return Failed;
      case Data(chunk) =>
        Moved(received, [], chunk, rest);
        assert received + (chunk + rest) == (received + chunk) + rest;
        contentLength := contentLength.SubIf(|chunk|);
        received := received + chunk;
        assert received <= wire;
        return Chunk(chunk);
    }

    method DropBody()
      requires Valid()
      modifies `receiving
      ensures Valid() && !receiving
    {
      receiving := false;
    }

    /** `is_end_stream`: exactly when everything that was announced has been received. */
    predicate IsEndStream()
      requires Valid()
      reads this, decoder, io
      ensures IsEndStream() <==> |received| == announced
    {
      contentLength == ZERO
    }

    /** `size_hint` is exact: it is what is still to be received. */
    function SizeHint(): (r: Option<u64>)
      requires Valid()
      reads this, decoder, io
      ensures r == Some(announced - |received|)
    {
      contentLength.IntoOpt()
    }
  }

  lemma Moved(a: seq<byte>, b: seq<byte>, chunk: seq<byte>, rest: seq<byte>)
    ensures a + b + (chunk + rest) == a + (b + chunk) + rest
  {
  }

  /** Whatever arrives, whenever the user looks, and whenever the dispatcher goes away: the user gets the
      first bytes of the message and never more than were announced. An end without an error is short
      if and only if the sending half was dropped before the decoder was at its end, and
      `is_end_stream` tells the user which it was. */
  method Run(length: DecodedLength, buffered: seq<byte>, coming: seq<byte>, steps: nat)
    returns (body: seq<byte>, ended: bool, finished: bool, told: bool, cut: bool)
    requires length.IsExact() && length != ZERO
    ensures body <= buffered + coming && |body| <= length.len
    ensures ended <==> |body| == length.len
    ensures finished && !told ==> (|body| < length.len <==> cut) && (ended <==> !cut)
    ensures finished && told ==> !ended && !cut
  {
    var channel := new Channel(length, buffered, coming);
    body, finished, told, cut := [], false, false, false;
    for step := 0 to steps
      invariant fresh(channel) && fresh(channel.decoder) && fresh(channel.io) && channel.Valid()
      invariant channel.announced == length.len && channel.wire == buffered + coming
      invariant channel.received == body && channel.told == told && channel.cut == cut
      invariant finished ==> !channel.sending && channel.queue == []
      invariant finished ==> (|body| < length.len <==> told || cut) && !(told && cut)
    {
      var op: int := *;
      if op == 0 && channel.sending {
        channel.Feed();
      } else if op == 1 && channel.receiving {
        var r := channel.PollInner();
        match r
        case Waiting =>
        case Chunk(data) => body := body + data;
        case Failed => told := true;
        case Finished => finished := true;
      } else if op == 2 {
        channel.DropBody();
      } else if op == 3 && channel.sending {
        var early := channel.DropSender();
        cut := cut || early;
      }
    }
    ended := channel.IsEndStream();
  }

  /** Such a run: ten bytes are announced, three of them reach the user, the dispatcher goes away, and
      the user sees the end of the body and no error. */
  method QuietShortEnd() returns (first: Polled, second: Polled, ended: bool)
    ensures first == Chunk([1, 2, 3]) && second == Finished && !ended
  {
    var channel := new Channel(DecodedLength(10), [1, 2, 3], [4, 5, 6, 7, 8, 9, 10]);
    channel.Feed();
    var _ := channel.DropSender();
    first := channel.PollInner();
    second := channel.PollInner();
    ended := channel.IsEndStream();
  }
}
