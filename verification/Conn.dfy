/** The state of an HTTP/1 connection (src/proto/h1/conn.rs). Parsing and writing message heads is
    done elsewhere in hyper and appears here as an arbitrary outcome. */
module Conn {
  import opened Bytes
  import opened ReadIo
  import opened Exchange
  import opened Length
  import Decode
  import Encode
  import RoundTrip
  import DecodeTheorems
  import Grammar = ChunkedGrammar

  datatype Reading =
    | Init
    | Continue(kind: Decode.Kind)
    | Body(kind: Decode.Kind)
    | KeepAlive
    | Closed

  datatype Writing =
    | Init
    | Body(kind: Encode.Kind, isLast: bool)
    | KeepAlive
    | Closed

  datatype KA = Idle | Busy | Disabled

  /** What parsing a head can come to. */
  datatype Parsed =
    | NotYet
    | Message(decode: DecodedLength, keepAlive: bool, expectContinue: bool)
    | Bad(isParse: bool, hasReply: bool, h2Preface: bool)

  datatype HeadResult = HeadPending | HeadEof | HeadError | Head(decode: DecodedLength, wantsContinue: bool)

  /** The reply that asks for a body: HTTP/1.1 100 Continue. */
  const CONTINUE: seq<byte> := [72, 84, 84, 80, 47, 49, 46, 49, 32, 49, 48, 48, 32, 67, 111, 110, 116, 105, 110, 117, 101, CR, LF, CR, LF]

  datatype BodyResult = BodyPending | BodyEnd | BodyError | Data(bytes: seq<byte>)

  /** `Decoder::new`. */
  function NewDecoder(len: DecodedLength): (k: Decode.Kind)
    ensures Decode.ValidKind(k) && (len != ZERO ==> !Decode.AtEof(k))
  {
    if len == CHUNKED then Decode.Chunked(Decode.Size, 0)
    else if len == CLOSE_DELIMITED then Decode.Eof(false)
    else Decode.Length(len.len)
  }

  /** What a decoder must make of any stream for the length that was announced: exactly so many bytes; a
      message of the chunked grammar, and nothing else; or everything up to the end of the connection. */
  ghost predicate ReadsAs(len: DecodedLength, kind: Decode.Kind)
    requires Decode.ValidKind(kind)
  {
    if len == CHUNKED then
      forall input: seq<byte>, payload: seq<byte>, rest: seq<byte> ::
        Decode.Meaning(kind, input) == Decode.Outcome(payload, Decode.Complete(rest)) <==> IsMessage(input, payload, rest)
    else if len == CLOSE_DELIMITED then
      forall input: seq<byte> :: Decode.Meaning(kind, input) == Decode.Outcome(input, Decode.Complete([]))
    else
      forall input: seq<byte> ::
        Decode.Meaning(kind, input) ==
        if len.len <= |input| then Decode.Outcome(input[..len.len], Decode.Complete(input[len.len..]))
        else Decode.Outcome(input, Decode.Broken(Decode.IncompleteBody))
  }

  /** The input is a message of the chunked grammar with that payload, followed by that rest. */
  ghost predicate IsMessage(input: seq<byte>, payload: seq<byte>, rest: seq<byte>) {
    exists m: Grammar.Message :: m.Valid() && m.Payload() == payload && input == m.Render() + rest
  }

  /** The decoder chosen for an announced length reads such a body. */
  lemma {:induction false} RightDecoder(len: DecodedLength)
    ensures ReadsAs(len, NewDecoder(len))
  {
    if len == CHUNKED {
      forall input: seq<byte>, payload: seq<byte>, rest: seq<byte>
        ensures Decode.Meaning(NewDecoder(len), input) == Decode.Outcome(payload, Decode.Complete(rest)) <==>
                IsMessage(input, payload, rest)
      {
        DecodeTheorems.AcceptedIffGrammatical(input, payload, rest);
      }
    }
  }

  /** The length that a head announces for a body that is encoded so. */
  function Announced(kind: Encode.Kind): DecodedLength
    requires kind.Length? ==> kind.remaining <= MAX_LEN
  {
    match kind
    case Chunked => CHUNKED
    case Length(n) => DecodedLength(n)
    case CloseDelimited => CLOSE_DELIMITED
  }

  /** What one side pushes for a body, the other reads back: the decoder that the announced length leads
      to delivers the payload and leaves what follows. */
  lemma {:induction false} PeerReadsBack(kind: Encode.Kind, wire: seq<byte>, payload: seq<byte>, suffix: seq<byte>)
    requires kind.Length? ==> kind.remaining <= MAX_LEN
    requires BodyWritten(kind, wire, payload)
    ensures NewDecoder(Announced(kind)) == RoundTrip.DecoderFor(kind)
    ensures Decode.Meaning(NewDecoder(Announced(kind)), wire + suffix) == Decode.Outcome(payload, Decode.Complete(suffix))
  {
  }

  function ReadSide(r: Reading): Side {
    match r
    case Init => Side.Idle
    case Continue(_) => Side.Busy
    case Body(_) => Side.Busy
    case KeepAlive => Side.Done
    case Closed => Side.Closed
  }

  function WriteSide(w: Writing): Side {
    match w
    case Init => Side.Idle
    case Body(_, _) => Side.Busy
    case KeepAlive => Side.Done
    case Closed => Side.Closed
  }

  function PhaseOf(r: Reading, w: Writing, ka: KA, open: Option<nat>): Phase {
    Phase(ReadSide(r), WriteSide(w), ka == Disabled, open)
  }

  /** A history, the exchanges it wrote and read heads of, and where it has led. */
  ghost predicate Recorded(server: bool, log: History, started: seq<nat>, heard: seq<nat>, p: Phase) {
    After(server, log) == Some(p) && started == WriteIds(log) && heard == ReadIds(log)
  }

  /** Something other than a head happens. */
  lemma Record(server: bool, log: History, started: seq<nat>, heard: seq<nat>, p: Phase, e: Event)
    requires Recorded(server, log, started, heard, p) && Next(server, p, e).Some? && !e.ReadHead? && !e.WriteHead?
    ensures Recorded(server, Then(log, e), started, heard, Next(server, p, e).value)
  {
  }

  lemma RecordRead(server: bool, log: History, started: seq<nat>, heard: seq<nat>, p: Phase, id: nat)
    requires Recorded(server, log, started, heard, p) && Next(server, p, ReadHead(id)).Some?
    ensures Recorded(server, Then(log, ReadHead(id)), started, heard + [id], Next(server, p, ReadHead(id)).value)
  {
  }

  lemma RecordWrite(server: bool, log: History, started: seq<nat>, heard: seq<nat>, p: Phase, id: nat)
    requires Recorded(server, log, started, heard, p) && Next(server, p, WriteHead(id)).Some?
    ensures Recorded(server, Then(log, WriteHead(id)), started + [id], heard, Next(server, p, WriteHead(id)).value)
  {
  }

  /** A decoder that is kept is not at its end; one that is let go of was. */
  ghost predicate ReadOk(r: Reading, finalKind: Decode.Kind) {
    match r
    case Continue(k) => Decode.ValidKind(k) && !Decode.AtEof(k)
    case Body(k) => Decode.ValidKind(k) && !Decode.AtEof(k)
    case KeepAlive => Decode.AtEof(finalKind)
    case _ => true
  }

  /** The bytes pushed for the outgoing body are one delimited body: its own decoder reads the payload
      back from them and stops exactly where they end. A body that ends with the connection never is. */
  ghost predicate BodyWritten(kind: Encode.Kind, wire: seq<byte>, payload: seq<byte>) {
    && kind != Encode.CloseDelimited && (kind.Length? ==> kind.remaining < U64)
    && RoundTrip.Delimited(kind, wire, payload)
  }

  /** An encoder that is kept is not at its end, and stands where the bytes pushed have brought it. */
  ghost predicate WriteOk(w: Writing, kind: Encode.Kind, wire: seq<byte>, payload: seq<byte>) {
    match w
    case Body(k, _) =>
      (match kind
       case Length(n) => k.Length? && 0 < k.remaining && |wire| + k.remaining == n < U64 && wire == payload
       case Chunked => k == Encode.Chunked && RoundTrip.Opened(wire, payload)
       case CloseDelimited => k == Encode.CloseDelimited && wire == payload)
    case KeepAlive => BodyWritten(kind, wire, payload)
    case _ => true
  }

  /** What one buffer adds to the payload: all of it, or as much as is still owed. */
  function Payload(kind: Encode.Kind, msg: seq<byte>): seq<byte> {
    if kind.Length? then msg[..Encode.Min(kind.remaining, |msg|)] else msg
  }

  /** A head with no body after it is followed by a body of no bytes. */
  lemma NoBody()
    ensures BodyWritten(Encode.Length(0), [], [])
  {
    RoundTrip.LengthDelimited(0, []);
  }

  /** A buffer in the middle of the body, or the one that fills its length. */
  lemma MoreBody(kind: Encode.Kind, now: Encode.Kind, next: Encode.Kind, wire: seq<byte>, payload: seq<byte>, msg: seq<byte>, pushed: seq<byte>)
    requires WriteOk(Writing.Body(now, false), kind, wire, payload) && 0 < |msg| < U64
    requires match now
             case Chunked => next == Encode.Chunked && pushed == Encode.ChunkBytes(msg)
             case Length(n) => next == Encode.Length(n - Encode.Min(n, |msg|)) && pushed == msg[..Encode.Min(n, |msg|)]
             case CloseDelimited => next == Encode.CloseDelimited && pushed == msg
    ensures next != Encode.Length(0) ==> WriteOk(Writing.Body(next, false), kind, wire + pushed, payload + Payload(now, msg))
    ensures next == Encode.Length(0) ==> BodyWritten(kind, wire + pushed, payload + Payload(now, msg))
  {
    if now == Encode.Chunked {
      RoundTrip.OpenedFurther(wire, payload, msg);
    } else if next == Encode.Length(0) {
      RoundTrip.LengthDelimited(kind.remaining, wire + pushed);
    }
  }

  /** The last buffer together with what ends the body. */
  lemma LastOfBody(kind: Encode.Kind, now: Encode.Kind, wire: seq<byte>, payload: seq<byte>, msg: seq<byte>, pushed: seq<byte>)
    requires WriteOk(Writing.Body(now, false), kind, wire, payload) && 0 < |msg| < U64
    requires now == Encode.Chunked || (now.Length? && now.remaining <= |msg|)
    requires pushed == if now == Encode.Chunked then Encode.ChunkBytes(msg) + Encode.LAST_CHUNK else msg[..now.remaining]
    ensures BodyWritten(kind, wire + pushed, payload + Payload(now, msg))
  {
    if now == Encode.Chunked {
      RoundTrip.OpenedFurther(wire, payload, msg);
      RoundTrip.OpenedEnds(wire + Encode.ChunkBytes(msg), payload + msg);
      assert wire + pushed == wire + Encode.ChunkBytes(msg) + Encode.LAST_CHUNK;
    } else {
      RoundTrip.LengthDelimited(kind.remaining, wire + pushed);
    }
  }

  /** A body that is written at once is complete, or was not to be written at all. */
  lemma WholeBodyWritten(kind: Encode.Kind, msg: seq<byte>, pushed: seq<byte>)
    requires 0 < |msg| < U64 && kind in {Encode.Chunked, Encode.Length(0), Encode.Length(|msg|)}
    requires pushed == if kind == Encode.Length(0) then []
                       else if kind == Encode.Chunked then Encode.ChunkBytes(msg) + Encode.LAST_CHUNK else msg
    ensures BodyWritten(kind, pushed, Payload(kind, msg))
  {
    if kind == Encode.Length(0) {
      NoBody();
    } else {
      RoundTrip.FullDelimited(kind, msg, pushed);
    }
  }

  /** Which states of the two directions go together: a server that can read has nothing to write,
      a client that can write has nothing to read. */
  ghost predicate StateOk(server: bool, r: Reading, w: Writing, ka: KA, open: Option<nat>) {
    && (ka == KA.Idle ==> r == Reading.Init && w == Writing.Init)
    && (if server then
          && (r == Reading.Init ==> w == Writing.Init && open == None)
          && (w.Body? || w.KeepAlive? ==> open == None)
        else
          && (w == Writing.Init ==> (r == Reading.Init && open == None) || r == Reading.Closed)
          && (r.Body? || r.Continue? || r.KeepAlive? ==> open == None))
  }

  /** What closing a direction, or both, adds to a history. */
  function ReadShut(h: History): (r: History)
    ensures Extends(h, r)
  {
    assert Extends(h, Then(h, ReadClosed));
    Then(Then(h, ReadClosed), Disable)
  }

  function WriteShut(h: History): (r: History)
    ensures Extends(h, r)
  {
    assert Extends(h, Then(h, WriteClosed));
    Then(Then(h, WriteClosed), Disable)
  }

  function BothShut(h: History): (r: History)
    ensures Extends(h, r)
  {
    ExtendsTransitive(h, ReadShut(h), WriteShut(ReadShut(h)));
    WriteShut(ReadShut(h))
  }

  class Conn {
    const server: bool
    const allowHalfClose: bool
    const io: Buffered
    var reading: Reading
    var writing: Writing
    var keepAlive: KA
    var notifyRead: bool
    var error: bool

    /** A record of what has happened on the connection, and of the exchanges whose heads have been
        written and read, in order. The connection itself never looks at it. */
    var log: History
    var started: seq<nat>
    var heard: seq<nat>
    /** The exchange waiting for its second head. */
    ghost var open: Option<nat>
    /** What parsing last came to. */
    ghost var parsed: Parsed
    /** Where the decoder of the incoming body stood when the body was said to be over. */
    ghost var finalKind: Decode.Kind
    /** The outgoing body: how it is framed, the bytes pushed for it, and what they carry. */
    ghost var bodyKind: Encode.Kind
    ghost var bodyWire: seq<byte>
    ghost var bodyPayload: seq<byte>

    constructor (server: bool, allowHalfClose: bool, io: Buffered)
      ensures Valid() && log == Start && this.io == io && this.server == server
      ensures reading == Reading.Init && writing == Writing.Init && keepAlive == KA.Busy
      ensures started == heard == [] && open == None
    {
      this.server, this.allowHalfClose, this.io := server, allowHalfClose, io;
      reading, writing, keepAlive := Reading.Init, Writing.Init, KA.Busy;
      notifyRead, error := false, false;
      log, open, started, heard := Start, None, [], [];
    }

    ghost predicate ReadComplete()
      reads this
    {
      Decode.AtEof(finalKind)
    }

    ghost predicate WriteComplete()
      reads this
    {
      BodyWritten(bodyKind, bodyWire, bodyPayload)
    }

    ghost predicate ReadValid()
      reads this
    {
      ReadOk(reading, finalKind)
    }

    ghost predicate WriteValid()
      reads this
    {
      WriteOk(writing, bodyKind, bodyWire, bodyPayload)
    }

    ghost predicate StateValid()
      reads this
    {
      && Recorded(server, log, started, heard, PhaseOf(reading, writing, keepAlive, open))
      && StateOk(server, reading, writing, keepAlive, open)
    }

    ghost predicate Valid()
      reads this
    {
      StateValid() && ReadValid() && WriteValid()
    }

    // ----- state -----

    predicate CanReadHead()
      reads this
    {
      reading == Reading.Init && (server || writing != Writing.Init)
    }

    predicate CanReadBody()
      reads this
    {
      reading.Body? || reading.Continue?
    }

    predicate CanWriteBody()
      reads this
    {
      writing.Body?
    }

    /** `can_write_head` also asks whether the write buffer takes headers; that is `room`. */
    predicate CanWriteHead(room: bool)
      reads this
    {
      (server || reading != Reading.Closed) && writing == Writing.Init && room
    }

    predicate IsIdle()
      reads this
    {
      keepAlive == KA.Idle
    }

    method CloseRead()
      requires Valid()
      modifies `reading, `keepAlive, `log
      ensures Valid() && reading == Reading.Closed && keepAlive == Disabled
      ensures writing == old(writing) && open == old(open) && notifyRead == old(notifyRead) && error == old(error)
      ensures log == ReadShut(old(log))
    {
      Record(server, log, started, heard, PhaseOf(reading, writing, keepAlive, open), ReadClosed);
      Record(server, Then(log, ReadClosed), started, heard, PhaseOf(Reading.Closed, writing, keepAlive, open), Disable);
      reading, keepAlive, log := Reading.Closed, Disabled, ReadShut(log);
    }

    /** Always recorded; the connection stays valid unless it was still to read a first head. */
    method CloseWrite()
      requires Valid()
      modifies `writing, `keepAlive, `log
      ensures writing == Writing.Closed && keepAlive == Disabled && log == WriteShut(old(log))
      ensures Recorded(server, log, started, heard, PhaseOf(reading, writing, keepAlive, open))
      ensures old(reading) != Reading.Init || !server ==> Valid()
    {
      Record(server, log, started, heard, PhaseOf(reading, writing, keepAlive, open), WriteClosed);
      Record(server, Then(log, WriteClosed), started, heard, PhaseOf(reading, Writing.Closed, keepAlive, open), Disable);
      writing, keepAlive, log := Writing.Closed, Disabled, WriteShut(log);
    }

    method Close()
      requires Valid()
      modifies `reading, `writing, `keepAlive, `log
      ensures Valid() && reading == Reading.Closed && writing == Writing.Closed && keepAlive == Disabled
      ensures open == old(open) && notifyRead == old(notifyRead) && error == old(error)
      ensures log == BothShut(old(log))
    {
      CloseRead();
      CloseWrite();
    }

    /** `State::disable_keep_alive`. */
    method GiveUpKeepAlive()
      requires StateValid()
      modifies `keepAlive, `log
      ensures StateValid() && keepAlive == Disabled && log == Then(old(log), Disable)
    {
      Record(server, log, started, heard, PhaseOf(reading, writing, keepAlive, open), Disable);
      keepAlive, log := Disabled, Then(log, Disable);
    }

    /** `Conn::disable_keep_alive`. */
    method DisableKeepAlive()
      requires Valid()
      modifies `reading, `writing, `keepAlive, `log
      ensures Valid() && keepAlive == Disabled && Extends(old(log), log) && open == old(open)
      ensures if old(keepAlive) == KA.Idle then reading == Reading.Closed && writing == Writing.Closed
              else reading == old(reading) && writing == old(writing)
    {
      if IsIdle() {
        Close();
      } else {
        GiveUpKeepAlive();
      }
    }

    /** `State::try_keep_alive` and `State::idle`. */
    method TryKeepAliveState()
      requires Valid()
      modifies `reading, `writing, `keepAlive, `log, `notifyRead
      ensures Valid() && Extends(old(log), log) && open == old(open) && error == old(error) && Decided()
      ensures match (old(reading), old(writing))
              case (KeepAlive, KeepAlive) =>
                if old(keepAlive) == KA.Busy then
                  && reading == Reading.Init && writing == Writing.Init && keepAlive == KA.Idle
                  && notifyRead == (old(notifyRead) || !server)
                  && log == Then(old(log), Reset)
                  && ReadComplete() && WriteComplete()
                else
                  IsClosed() && log == BothShut(old(log)) && notifyRead == old(notifyRead)
              case (Closed, KeepAlive) => IsClosed() && log == BothShut(old(log)) && notifyRead == old(notifyRead)
              case (KeepAlive, Closed) => IsClosed() && log == BothShut(old(log)) && notifyRead == old(notifyRead)
              case _ => Unchanged(old(reading), old(writing), old(keepAlive), old(notifyRead)) && log == old(log)
    {
      if reading.KeepAlive? && writing.KeepAlive? {
        if keepAlive == KA.Busy {
          BecomeIdle();
        } else {
          Close();
        }
      } else if (reading.Closed? && writing.KeepAlive?) || (reading.KeepAlive? && writing.Closed?) {
        Close();
      }
    }

    /** `State::idle`: both messages are over, and another exchange may begin. */
    method BecomeIdle()
      requires Valid() && reading.KeepAlive? && writing.KeepAlive? && keepAlive == KA.Busy
      modifies `reading, `writing, `keepAlive, `log, `notifyRead
      ensures Valid() && reading == Reading.Init && writing == Writing.Init && keepAlive == KA.Idle
      ensures log == Then(old(log), Reset) && notifyRead == (old(notifyRead) || !server)
      ensures ReadComplete() && WriteComplete()
    {
      Record(server, log, started, heard, PhaseOf(reading, writing, keepAlive, open), Reset);
      keepAlive, log := KA.Idle, Then(log, Reset);
      reading, writing := Reading.Init, Writing.Init;
      if !server {
        notifyRead := true;
      }
    }

    /** Nothing is left to decide: no direction waits for one that is done or closed. */
    predicate Decided()
      reads this
    {
      && !(reading.KeepAlive? && (writing.KeepAlive? || writing.Closed?))
      && !(reading.Closed? && writing.KeepAlive?)
    }

    predicate IsClosed()
      reads this
    {
      reading == Reading.Closed && writing == Writing.Closed && keepAlive == Disabled
    }

    predicate Unchanged(r: Reading, w: Writing, k: KA, n: bool)
      reads this
    {
      reading == r && writing == w && keepAlive == k && notifyRead == n
    }

    /** Between messages, what has been read is not yet used up or the transport has no more to give. */
    ghost predicate Attentive()
      reads this, io
    {
      reading == Reading.Init ==> io.readBlocked || io.readBuf != []
    }

    /** Between messages the connection either waits for the transport or asks to be polled again. */
    ghost predicate Noticed()
      reads this, io
    {
      reading == Reading.Init && !writing.Body? && !io.readBlocked ==> notifyRead
    }

    /** `maybe_notify`. */
    method MaybeNotify()
      requires Valid()
      modifies `reading, `writing, `keepAlive, `log, `notifyRead, `error, io
      ensures Valid() && Extends(old(log), log) && open == old(open) && io.Input() == old(io.Input())
      ensures || (IsClosed() && log == BothShut(old(log)))
              || (reading == Reading.Closed && writing == old(writing) && keepAlive == Disabled && log == ReadShut(old(log)))
              || (reading == old(reading) && writing == old(writing) && keepAlive == old(keepAlive) && log == old(log))
      ensures reading != old(reading) ==> old(reading) == Reading.Init
      ensures old(notifyRead) ==> notifyRead
      ensures notifyRead && !old(notifyRead) ==> old(reading) == Reading.Init && !old(writing).Body?
      ensures old(keepAlive) == KA.Idle && reading == Reading.Closed ==> IsClosed()
      ensures reading != old(reading) ==> error || io.Input() == []
      ensures writing != old(writing) ==> error || old(keepAlive) == KA.Idle
      ensures old(io.readBlocked) || old(io.readBuf) != [] ==> reading == old(reading) && writing == old(writing)
      ensures old(Attentive()) || !old(writing).Body? ==> Attentive()
      ensures old(reading) == Reading.Init && !old(writing).Body? && old(io.readBuf) != [] && !old(io.readBlocked) ==>
                notifyRead && reading == Reading.Init
      ensures Noticed()
      ensures old(reading) != Reading.Init ==> unchanged(io)
    {
      if reading != Reading.Init || writing.Body? {
        return;
      }
      if !io.readBlocked {
        if io.readBuf == [] {
          var r := io.PollReadFromIo();
          match r {
            case Ready(Ok(n)) =>
              if n == 0 {
                if IsIdle() {
                  Close();
                } else {
                  CloseRead();
                }
                return;
              }
            case Pending =>
              return;
            case Ready(Err(_)) =>
              Close();
              error := true;
          }
        }
        notifyRead := true;
      }
    }

    method TryKeepAlive()
      requires Valid()
      modifies `reading, `writing, `keepAlive, `log, `notifyRead, `error, io
      ensures Valid() && Extends(old(log), log) && open == old(open) && io.Input() == old(io.Input())
      ensures CanReadBody() ==> reading == old(reading)
      ensures old(reading).Body? ==> reading == old(reading) && writing == old(writing)
      ensures CanWriteBody() ==> writing == old(writing)
      ensures old(reading) == Reading.Closed ==> reading == Reading.Closed
      ensures old(writing) == Writing.Closed ==> writing == Writing.Closed
      ensures Decided() || (old(reading) == Reading.Init && reading == Reading.Closed)
      ensures old(reading) != Reading.Init && !(old(reading).KeepAlive? && old(writing).KeepAlive?) ==> unchanged(io)
      ensures (old(notifyRead) ==> notifyRead) && Noticed()
      ensures old(reading).KeepAlive? && (old(writing).Init? || old(writing).Body?) ==> reading == old(reading) && writing == old(writing)
      ensures old(reading).KeepAlive? && old(writing).KeepAlive? && old(keepAlive) == KA.Busy ==>
                Extends(Then(old(log), Reset), log) && (reading == Reading.Init || io.Input() == [] || error)
      ensures old(Attentive()) ==> Attentive() && (old(reading) == Reading.Init ==> reading == Reading.Init)
    {
      TryKeepAliveState();
      ghost var middle := log;
      MaybeNotify();
      ExtendsTransitive(old(log), middle, log);
    }

    // ----- reading -----

    /** `Buffered::parse` and `role.rs`: bytes are read until they make up a head, or are known not to.
        There is no answer yet only when the transport has none to give. */
    method Parse() returns (r: Parsed)
      modifies `parsed, io
      ensures parsed == r && (r.NotYet? ==> io.readBlocked)
    {
      r := TryParse();
      parsed := r;
    }

    method TryParse() returns (r: Parsed)
      modifies io
      ensures r.NotYet? ==> io.readBlocked
    {
      var isParse: bool, hasReply: bool, h2Preface: bool := *, *, *;
      var times: nat := *;
      while times > 0 {
        times := times - 1;
        var n := io.PollReadFromIo();
        if n.Pending? {
          return NotYet;
        } else if n.value.Err? || n.value.value == 0 {
          return Bad(isParse, hasReply, h2Preface);
        }
      }
      var good: bool := *;
      if !good {
        return Bad(isParse, hasReply, h2Preface);
      }
      var n: nat :| n <= |io.readBuf|;
      io.readBuf := io.readBuf[n..];
      var decode: DecodedLength, keepAlive: bool, expectContinue: bool := *, *, *;
      return Message(decode, keepAlive, expectContinue);
    }

    /** `poll_read_head`, for exchange `id`. */
    method PollReadHead(id: nat) returns (r: HeadResult)
      requires Valid() && CanReadHead() && (!server ==> open == Some(id))
      modifies this, io
      ensures Valid() && Extends(old(log), log)
      ensures r.Head? ==>
                && open == (if server then Some(id) else None)
                && Extends(Then(old(log), ReadHead(id)), log)
                && (if r.decode == ZERO then !CanReadBody() && !r.wantsContinue
                    else reading == if r.wantsContinue then Reading.Continue(NewDecoder(r.decode)) else Reading.Body(NewDecoder(r.decode)))
                && (server || r.decode != ZERO ==> writing == old(writing) && reading != Reading.Init)
      ensures r.Head? && r.decode != ZERO ==> ReadsAs(r.decode, reading.kind)
      ensures r.HeadPending? && reading != Reading.Closed ==> io.readBlocked
      // What is returned, and whether keep-alive is given up, is what the head said.
      ensures parsed.NotYet? ==> r == HeadPending
      ensures parsed.Message? ==> r == Head(parsed.decode, parsed.expectContinue && parsed.decode != ZERO)
      ensures parsed.Message? && (server || parsed.decode != ZERO) ==>
                keepAlive == if old(keepAlive) == Disabled || !parsed.keepAlive then Disabled else KA.Busy
      ensures parsed.Bad? ==> !r.Head?
      ensures !r.Head? ==> open == old(open)
      ensures started == old(started) && heard == old(heard) + if r.Head? then [id] else []
      ensures r.HeadError? ==> reading == Reading.Closed && keepAlive == Disabled && log == ReadShut(old(log))
      ensures r.HeadEof? ==> IsClosed()
      ensures r.HeadPending? ==>
                || (reading == old(reading) && writing == old(writing) && keepAlive == old(keepAlive) && log == old(log))
                || (server && reading == Reading.Closed && Extends(ReadShut(old(log)), log))
      ensures Attentive() && (!server ==> !r.HeadEof?)
    {
      r := ReadMessageHead(id);
      if r.Head? {
        RightDecoder(r.decode);
      }
    }

    method ReadMessageHead(id: nat) returns (r: HeadResult)
      requires Valid() && CanReadHead() && (!server ==> open == Some(id))
      modifies this, io
      ensures Valid() && Extends(old(log), log)
      ensures r.Head? ==>
                && open == (if server then Some(id) else None)
                && Extends(Then(old(log), ReadHead(id)), log)
                && (if r.decode == ZERO then !CanReadBody() && !r.wantsContinue
                    else reading == if r.wantsContinue then Reading.Continue(NewDecoder(r.decode)) else Reading.Body(NewDecoder(r.decode)))
                && (server || r.decode != ZERO ==> writing == old(writing) && reading != Reading.Init)
      ensures r.HeadPending? && reading != Reading.Closed ==> io.readBlocked
      // What is returned, and whether keep-alive is given up, is what the head said.
      ensures parsed.NotYet? ==> r == HeadPending
      ensures parsed.Message? ==> r == Head(parsed.decode, parsed.expectContinue && parsed.decode != ZERO)
      ensures parsed.Message? && (server || parsed.decode != ZERO) ==>
                keepAlive == if old(keepAlive) == Disabled || !parsed.keepAlive then Disabled else KA.Busy
      ensures parsed.Bad? ==> !r.Head?
      ensures !r.Head? ==> open == old(open)
      ensures started == old(started) && heard == old(heard) + if r.Head? then [id] else []
      ensures r.HeadError? ==> reading == Reading.Closed && keepAlive == Disabled && log == ReadShut(old(log))
      ensures r.HeadEof? ==> IsClosed()
      ensures r.HeadPending? ==>
                || (reading == old(reading) && writing == old(writing) && keepAlive == old(keepAlive) && log == old(log))
                || (server && reading == Reading.Closed && Extends(ReadShut(old(log)), log))
      ensures Attentive() && (!server ==> !r.HeadEof?)
    {
      var parsed := Parse();
      match parsed {
        case NotYet => return HeadPending;
        case Bad(isParse, hasReply, h2Preface) =>
          r := OnReadHeadError(isParse, hasReply, h2Preface);
          return;
        case Message(decode, keep, expectContinue) =>
          r := BeginMessage(id, decode, keep, expectContinue);
          ExtendsTransitive(old(log), Then(old(log), ReadHead(id)), log);
      }
    }

    /** A head has been parsed: read its body next, if it has one. */
    method BeginMessage(id: nat, decode: DecodedLength, keep: bool, expectContinue: bool) returns (r: HeadResult)
      requires Valid() && CanReadHead() && (!server ==> open == Some(id))
      modifies `reading, `writing, `keepAlive, `log, `open, `heard, `finalKind, `notifyRead, `error, io
      ensures Valid() && r == Head(decode, expectContinue && decode != ZERO) && Attentive()
      ensures open == (if server then Some(id) else None) && Extends(Then(old(log), ReadHead(id)), log)
      ensures if decode == ZERO then !CanReadBody()
              else reading == if expectContinue then Reading.Continue(NewDecoder(decode)) else Reading.Body(NewDecoder(decode))
      ensures server || decode != ZERO ==>
                && writing == old(writing) && reading != Reading.Init
                && keepAlive == if old(keepAlive) == Disabled || !keep then Disabled else KA.Busy
      ensures heard == old(heard) + [id]
    {
      AcceptHead(id, decode, keep);
      if decode == ZERO {
        EmptyBody();
        return Head(decode, false);
      } else if expectContinue {
        reading := Reading.Continue(NewDecoder(decode));
        return Head(decode, true);
      }
      return Head(decode, false);
    }

    /** A message without a body has been read as soon as its head has. */
    method EmptyBody()
      requires StateValid() && WriteValid() && reading.Body? && Decode.AtEof(finalKind)
      modifies `reading, `writing, `keepAlive, `log, `notifyRead, `error, io
      ensures Valid() && open == old(open) && !CanReadBody() && Extends(Then(old(log), ReadDone), log)
      ensures forall h :: Extends(h, old(log)) ==> Extends(h, log)
      ensures server ==> writing == old(writing) && reading == Reading.KeepAlive
      ensures !server ==> Decided()
      ensures Attentive()
      ensures server ==> keepAlive == old(keepAlive)
    {
      Record(server, log, started, heard, PhaseOf(reading, writing, keepAlive, open), ReadDone);
      reading, log := Reading.KeepAlive, Then(log, ReadDone);
      if !server {
        TryKeepAlive();
      }
      forall h | Extends(h, old(log)) ensures Extends(h, log) {
        ExtendsTransitive(h, Then(old(log), ReadDone), log);
      }
    }

    /** `busy`, `keep_alive &=` and the new decoder. */
    method AcceptHead(id: nat, decode: DecodedLength, keep: bool)
      requires Valid() && CanReadHead() && (!server ==> open == Some(id))
      modifies `reading, `keepAlive, `log, `open, `heard, `finalKind
      ensures heard == old(heard) + [id]
      ensures StateValid() && WriteValid() && reading == Reading.Body(NewDecoder(decode))
      ensures writing == old(writing) && open == (if server then Some(id) else None)
      ensures decode != ZERO ==> Valid()
      ensures decode == ZERO ==> ReadComplete()
      ensures Extends(Then(old(log), ReadHead(id)), log)
      ensures keepAlive == if old(keepAlive) == Disabled || !keep then Disabled else KA.Busy
    {
      HeadRead(id, NewDecoder(decode));
      if !keep {
        GiveUpKeepAlive();
      }
      finalKind := NewDecoder(decode);
    }

    /** The head is there: the connection is busy, unless keep-alive was given up, and reads the body. */
    method HeadRead(id: nat, kind: Decode.Kind)
      requires Valid() && CanReadHead() && (!server ==> open == Some(id))
      modifies `reading, `keepAlive, `log, `open, `heard
      ensures StateValid() && WriteValid() && reading == Reading.Body(kind) && log == Then(old(log), ReadHead(id))
      ensures heard == old(heard) + [id] && open == (if server then Some(id) else None)
      ensures keepAlive == if old(keepAlive) == Disabled then Disabled else KA.Busy
    {
      RecordRead(server, log, started, heard, PhaseOf(reading, writing, keepAlive, open), id);
      log, heard := Then(log, ReadHead(id)), heard + [id];
      reading, open := Reading.Body(kind), if server then Some(id) else None;
      if keepAlive != Disabled {
        keepAlive := KA.Busy;
      }
    }

    /** `on_read_head_error` and `on_parse_error`. Only a server has a reply to make. */
    method OnReadHeadError(isParse: bool, hasReply: bool, h2Preface: bool) returns (r: HeadResult)
      requires Valid() && CanReadHead()
      modifies this, io
      ensures Valid() && Extends(old(log), log) && open == old(open) && started == old(started) && heard == old(heard)
      ensures r.HeadError? ==> reading == Reading.Closed && keepAlive == Disabled && log == ReadShut(old(log))
      ensures r.HeadEof? ==> IsClosed()
      ensures r.HeadPending? ==> server && reading == Reading.Closed && Extends(ReadShut(old(log)), log)
      ensures !r.Head?
      // Without an error that is to be reported, it is just the connection closing.
      ensures var wrong := isParse || !IsBlank(old(io.readBuf)) || (!server && old(keepAlive) != KA.Idle);
              && (r.HeadEof? <==> !wrong)
              && (r.HeadPending? <==> wrong && old(writing) == Writing.Init && server && hasReply && !h2Preface)
      ensures parsed == old(parsed)
    {
      var mustError := !server && !IsIdle();
      CloseRead();
      io.ConsumeLeadingLines();
      var wasMidParse := isParse || io.readBuf != [];
      if wasMidParse || mustError {
        if writing == Writing.Init && !h2Preface && server && hasReply {
          var _ := WriteHead(ErrorHead);
          ExtendsTransitive(old(log), ReadShut(old(log)), log);
          error := true;
          return HeadPending;
        }
        return HeadError;
      }
      CloseWrite();
      return HeadEof;
    }

    /** `poll_read_body`: the next piece of the body, at the level of the bytes of the connection.
        When it is the last, the connection stands exactly at what follows the body. A request that
        waits to be asked for its body is, unless it has been answered; what is pushed for that is
        returned. */
    method PollReadBody() returns (r: BodyResult, pushed: seq<byte>)
      requires Valid() && CanReadBody()
      modifies `reading, `writing, `keepAlive, `log, `notifyRead, `error, `finalKind, io
      ensures Valid() && Extends(old(log), log) && open == old(open)
      ensures CanReadBody() ==> (r.BodyPending? || r.Data?) && reading.Body? && log == old(log) && writing == old(writing)
      ensures r.BodyPending? ==> CanReadBody()
      ensures r.Data? ==> r.bytes != [] && |io.Input()| < |old(io.Input())|
      ensures CanReadBody() ==>
                Decode.Meaning(old(reading).kind, old(io.Input())) ==
                Decode.Prepend(if r.Data? then r.bytes else [], Decode.Meaning(reading.kind, io.Input()))
      ensures !CanReadBody() && !r.BodyError? ==>
                && Extends(Then(old(log), ReadDone), log) && ReadComplete()
                && Decode.Meaning(old(reading).kind, old(io.Input())) ==
                   Decode.Outcome(if r.Data? then r.bytes else [], Decode.Complete(io.Input()))
      ensures r.BodyError? ==> Extends(Then(old(log), ReadClosed), log) && reading == Reading.Closed
      ensures !CanReadBody() ==> Decided()
      ensures !CanReadBody() && !r.BodyError? ==> StaysOpen(old(writing), old(keepAlive), old(log))
      ensures r.BodyPending? ==> io.readBlocked
      ensures r.BodyError? ==> io.failed || exists e :: Decode.Meaning(old(reading).kind, old(io.Input())) == Decode.Outcome([], Decode.Broken(e))
      ensures Attentive()
      ensures pushed == if old(reading).Continue? && old(writing) == Writing.Init then CONTINUE else []
      ensures old(writing) == Writing.Closed ==> writing == Writing.Closed
    {
      pushed := if reading.Continue? && writing == Writing.Init then CONTINUE else [];
      var kind, polled := DecodeBody(reading.kind);
      match polled {
        case Pending =>
          reading := Reading.Body(kind);
          return BodyPending, pushed;
        case Ready(Ok(slice)) =>
          if Decode.AtEof(kind) {
            FinishReading(Some(kind));
            return if slice != [] then Data(slice) else BodyEnd, pushed;
          }
          // The branch that the source marks as unreachable is one.
          assert slice != [];
          reading := Reading.Body(kind);
          return Data(slice), pushed;
        case Ready(Err(_)) =>
          FinishReading(None);
          return BodyError, pushed;
      }
    }

    /** A body that was read to its end leaves the connection open for the outgoing message, and for
        another exchange if that is over too and keep-alive is wanted. */
    ghost predicate StaysOpen(w: Writing, ka: KA, before: History)
      reads this, io
    {
      && (w.Init? || w.Body? ==> reading == Reading.KeepAlive && writing == w)
      && (w.KeepAlive? && ka == KA.Busy ==>
            Extends(Then(Then(before, ReadDone), Reset), log) && (reading == Reading.Init || io.Input() == [] || error))
    }

    /** The incoming body is over, or broken; see whether the connection can be used again. */
    method FinishReading(end: Option<Decode.Kind>)
      requires Valid() && CanReadBody() && (end.Some? ==> Decode.AtEof(end.value))
      modifies `reading, `writing, `keepAlive, `log, `notifyRead, `error, `finalKind, io
      ensures Valid() && open == old(open) && !CanReadBody() && io.Input() == old(io.Input())
      ensures Extends(old(log), log)
      ensures end.Some? ==> Extends(Then(old(log), ReadDone), log) && finalKind == end.value
      ensures end.None? ==> Extends(Then(old(log), ReadClosed), log) && reading == Reading.Closed
      ensures Decided() && Attentive()
      ensures end.Some? ==> StaysOpen(old(writing), old(keepAlive), old(log))
      ensures end.None? ==> unchanged(io)
      ensures old(writing) == Writing.Closed ==> writing == Writing.Closed
    {
      if end.Some? {
        Record(server, log, started, heard, PhaseOf(reading, writing, keepAlive, open), ReadDone);
        finalKind, reading, log := end.value, Reading.KeepAlive, Then(log, ReadDone);
      } else {
        Record(server, log, started, heard, PhaseOf(reading, writing, keepAlive, open), ReadClosed);
        reading, log := Reading.Closed, Then(log, ReadClosed);
      }
      ghost var middle := log;
      TryKeepAlive();
      ExtendsTransitive(old(log), middle, log);
    }

    method DecodeBody(kind: Decode.Kind) returns (next: Decode.Kind, r: Poll<Result<seq<byte>, Decode.Error>>)
      requires Decode.ValidKind(kind) && !Decode.AtEof(kind)
      modifies io
      ensures r.Pending? ==> Decode.ValidKind(next) && !Decode.AtEof(next) && io.readBlocked
      ensures r.Ready? && r.value.Err? ==>
                io.failed || Decode.Meaning(kind, old(io.Input())) == Decode.Outcome([], Decode.Broken(r.value.error))
      ensures r.Pending? ==> Decode.Meaning(kind, old(io.Input())) == Decode.Prepend([], Decode.Meaning(next, io.Input()))
      ensures r.Ready? && r.value.Ok? ==>
                && Decode.ValidKind(next) && (r.value.value == [] ==> Decode.AtEof(next))
                && (r.value.value != [] ==> |io.Input()| < |old(io.Input())|)
                && Decode.Meaning(kind, old(io.Input())) == Decode.Prepend(r.value.value, Decode.Meaning(next, io.Input()))
      ensures r.Ready? && r.value.Ok? && Decode.AtEof(next) ==>
                Decode.Meaning(kind, old(io.Input())) == Decode.Outcome(r.value.value, Decode.Complete(io.Input()))
    {
      var decoder := new Decode.Decoder(kind);
      r := decoder.Decode(io);
      next := decoder.kind;
      if r.Ready? && r.value.Ok? && Decode.AtEof(next) {
        assert Decode.Meaning(next, io.Input()) == Decode.Outcome([], Decode.Complete(io.Input()));
      }
    }

    /** `poll_drain_or_close_read`. */
    method PollDrainOrCloseRead()
      requires Valid() && CanReadBody()
      modifies `reading, `writing, `keepAlive, `notifyRead, `error, `log, `finalKind, io
      ensures Valid() && Extends(old(log), log) && open == old(open) && !CanReadBody() && Attentive()
      // One read is made, and the read side closes unless that was all of the body.
      ensures StaysOpen(old(writing), old(keepAlive), old(log)) || Extends(Then(old(log), ReadClosed), log)
      ensures io.readBlocked || io.failed || |io.Input()| < |old(io.Input())|
              || Decode.Meaning(old(reading).kind, old(io.Input())).body == []
      ensures old(writing) == Writing.Closed ==> writing == Writing.Closed
    {
      var _, _ := PollReadBody();
      CloseUnlessDrained();
    }

    /** Nothing is left to read, or nothing will be. */
    method CloseUnlessDrained()
      requires Valid()
      modifies `reading, `keepAlive, `log
      ensures Valid() && !CanReadBody() && (forall h :: Extends(h, old(log)) ==> Extends(h, log))
      ensures if old(reading) == Reading.Init || old(reading) == Reading.KeepAlive
              then reading == old(reading) && keepAlive == old(keepAlive) && log == old(log)
              else reading == Reading.Closed && log == ReadShut(old(log))
    {
      if reading != Reading.Init && reading != Reading.KeepAlive {
        CloseRead();
        forall h | Extends(h, old(log)) ensures Extends(h, log) {
          ExtendsTransitive(h, old(log), log);
        }
      }
    }

    /** `poll_read_keep_alive`; the flag says whether the connection ends here with an error. */
    method PollReadKeepAlive() returns (failed: bool)
      requires Valid() && !CanReadHead() && !CanReadBody()
      modifies `reading, `writing, `keepAlive, `log, io
      ensures Valid() && Extends(old(log), log) && open == old(open) && !CanReadBody()
      ensures reading == old(reading) || reading == Reading.Closed
      ensures writing == old(writing) || IsClosed()
      ensures !failed ==> Attentive()
      ensures !server && old(reading) == Reading.Init && old(io.readBuf) != [] ==> failed && reading == old(reading) && log == old(log)
      ensures old(reading) != Reading.Closed && old(io.Input()) == [] && !allowHalfClose ==>
                failed || reading == Reading.Closed || io.readBlocked
    {
      if reading == Reading.Closed {
        return false;
      } else if reading != Reading.Init || writing != Writing.Init {
        failed := MidMessageDetectEof();
      } else {
        failed := RequireEmptyRead();
      }
    }

    method MidMessageDetectEof() returns (failed: bool)
      requires Valid() && !CanReadHead() && !CanReadBody() && reading != Reading.Closed
      modifies `reading, `writing, `keepAlive, `log, io
      ensures Valid() && Extends(old(log), log) && open == old(open) && !CanReadBody()
      ensures reading == old(reading) || reading == Reading.Closed
      ensures writing == old(writing) || IsClosed()
      ensures !failed ==> reading == old(reading) && writing == old(writing)
      ensures failed ==> reading == Reading.Closed && !allowHalfClose && old(io.readBuf) == []
      ensures failed && !IsClosed() ==> io.Input() == []
      ensures !allowHalfClose && old(io.Input()) == [] ==> failed || io.readBlocked
    {
      if allowHalfClose || io.readBuf != [] {
        return false;
      }
      var r := io.PollReadFromIo();
      match r {
        case Pending => return false;
        case Ready(Err(_)) => Close(); return true;
        case Ready(Ok(n)) =>
          if n == 0 {
            CloseRead();
            return true;
          }
          return false;
      }
    }

    /** Only a client ever comes here. */
    method RequireEmptyRead() returns (failed: bool)
      requires Valid() && !CanReadHead() && reading == Reading.Init && writing == Writing.Init
      modifies `reading, `writing, `keepAlive, `log, io
      ensures Valid() && Extends(old(log), log) && open == old(open) && !CanReadBody()
      ensures reading == old(reading) || reading == Reading.Closed
      ensures writing == old(writing) || IsClosed()
      ensures !failed && reading == Reading.Closed ==> old(keepAlive) == KA.Idle && writing == old(writing)
      ensures old(io.readBuf) != [] ==> failed && reading == old(reading) && log == old(log)
      ensures !failed && reading == Reading.Init ==> io.readBlocked
      ensures io.readBuf != [] ==> failed
      ensures reading == Reading.Closed && !IsClosed() ==> io.Input() == []
    {
      assert !server;
      if io.readBuf != [] {
        return true;
      }
      var r := io.PollReadFromIo();
      match r {
        case Pending => return false;
        case Ready(Err(_)) => Close(); return true;
        case Ready(Ok(n)) =>
          if n == 0 {
            failed := !IsIdle();
            CloseRead();
            return failed;
          }
          return true;
      }
    }

    // ----- writing -----

    /** A head may be written now, and this is its place in the history. */
    ghost predicate MayWrite(e: Event)
      reads this
    {
      && writing == Writing.Init
      && match e
         case WriteHead(id) => if server then open == Some(id) && reading != Reading.Init else reading == Reading.Init
         case ErrorHead => server && reading == Reading.Closed && open == None
         case _ => false
    }

    /** `encode_head`: a client marks the connection busy; answering an HTTP/1.0 peer may give up
        keep-alive; a server's head may turn out to be unsendable, which closes the write side. With
        a body known in full, the encoder is chunked, empty or of just that length. */
    method EncodeHead(ghost e: Event, full: Option<nat>) returns (encoder: Option<(Encode.Kind, bool)>)
      requires Valid() && MayWrite(e)
      modifies `writing, `keepAlive, `log, `error
      ensures Valid() && reading == old(reading) && open == old(open) && Extends(old(log), log)
      ensures encoder.None? ==> server && writing == Writing.Closed && error && Extends(old(log), log)
      ensures encoder.Some? ==> writing == Writing.Init && keepAlive != KA.Idle && error == old(error) && MayWrite(e)
      ensures encoder.Some? && encoder.value.0.Length? ==> encoder.value.0.remaining < U64
      ensures encoder.Some? && full.Some? ==>
                encoder.value.0 in {Encode.Chunked, Encode.Length(0), Encode.Length(full.value)}
      ensures old(keepAlive) == Disabled ==> keepAlive == Disabled
    {
      if !server && keepAlive != Disabled {
        keepAlive := KA.Busy;
      }
      var oldPeer: bool := *;
      if oldPeer {
        GiveUpKeepAlive();
      }
      var fails: bool := *;
      if fails && server {
        HeadFails();
        return None;
      }
      var kind: Encode.Kind, isLast: bool := *, *;
      if (kind.Length? && kind.remaining >= U64)
         || (full.Some? && kind !in {Encode.Chunked, Encode.Length(0), Encode.Length(full.value)}) {
        kind := Encode.Length(0);
      }
      return Some((kind, isLast));
    }

    /** A response head that cannot be written closes the write side. */
    method HeadFails()
      requires Valid() && server && reading != Reading.Init && keepAlive != KA.Idle
      modifies `writing, `log, `error
      ensures Valid() && writing == Writing.Closed && error && log == Then(old(log), WriteClosed)
    {
      Record(server, log, started, heard, PhaseOf(reading, writing, keepAlive, open), WriteClosed);
      error, writing, log := true, Writing.Closed, Then(log, WriteClosed);
    }

    /** The head goes into the history. */
    method Commit(e: Event)
      requires Valid() && MayWrite(e) && keepAlive != KA.Idle
      modifies this`log, this`open, this`started
      ensures log == Then(old(log), e)
      ensures started == old(started) + if e.WriteHead? then [e.id] else []
      ensures open == match e
                      case WriteHead(id) => if server then None else Some(id)
                      case _ => old(open)
      ensures Recorded(server, log, started, heard, Phase(ReadSide(reading), Side.Busy, keepAlive == Disabled, open))
    {
      if e.WriteHead? {
        RecordWrite(server, log, started, heard, PhaseOf(reading, writing, keepAlive, open), e.id);
        open, started := if server then None else Some(e.id), started + [e.id];
      } else {
        Record(server, log, started, heard, PhaseOf(reading, writing, keepAlive, open), e);
      }
      log := Then(log, e);
    }

    /** `write_head`. */
    method WriteHead(e: Event) returns (wrote: bool)
      requires Valid() && MayWrite(e)
      modifies this
      ensures Valid() && reading == old(reading) && Extends(old(log), log)
      ensures writing != Writing.Init
      ensures wrote ==> open == if !e.WriteHead? then old(open) else if server then None else Some(e.id)
      ensures started == old(started) + (if wrote && e.WriteHead? then [e.id] else []) && heard == old(heard)
      ensures !wrote ==> server && writing == Writing.Closed && error && open == old(open)
      ensures wrote ==> log.Then? && (if bodyKind == Encode.Length(0) then writing == Writing.KeepAlive || writing == Writing.Closed
                                      else writing.Body? && writing.kind == bodyKind && log.last == e)
      ensures parsed == old(parsed)
    {
      var encoder := EncodeHead(e, None);
      wrote := encoder.Some?;
      if wrote {
        var (kind, isLast) := encoder.value;
        Commit(e);
        ghost var middle := log;
        BeginBody(kind, isLast);
        ExtendsTransitive(old(log), middle, log);
      }
    }

    /** The head has been written: a body follows, or the message is over. */
    method BeginBody(kind: Encode.Kind, isLast: bool)
      requires ReadValid() && StateValidExceptWriting() && (kind.Length? ==> kind.remaining < U64)
      modifies `writing, `log, `bodyKind, `bodyWire, `bodyPayload
      ensures Valid() && bodyKind == kind && Extends(old(log), log)
      ensures if kind == Encode.Length(0) then writing == (if isLast then Writing.Closed else Writing.KeepAlive) && log.Then?
              else writing == Writing.Body(kind, isLast) && log == old(log)
    {
      bodyKind, bodyWire, bodyPayload := kind, [], [];
      if kind != Encode.Length(0) {
        RoundTrip.NothingOpened();
        writing := Writing.Body(kind, isLast);
      } else {
        NoBody();
        FinishWriting(isLast);
      }
    }

    /** The message being written is at its end: close the write side, or wait for the read side. */
    method FinishWriting(close: bool)
      requires ReadValid() && StateValidExceptWriting()
      requires !close ==> WriteComplete()
      modifies this`writing, this`log
      ensures Valid()
      ensures writing == if close then Writing.Closed else Writing.KeepAlive
      ensures log == Then(old(log), if close then WriteClosed else WriteDone)
    {
      var e := if close then WriteClosed else WriteDone;
      Record(server, log, started, heard, Phase(ReadSide(reading), Side.Busy, keepAlive == Disabled, open), e);
      writing, log := if close then Writing.Closed else Writing.KeepAlive, Then(log, e);
    }

    /** The state while a message is being written, whatever `writing` holds. */
    ghost predicate StateValidExceptWriting()
      reads this
    {
      && Recorded(server, log, started, heard, Phase(ReadSide(reading), Side.Busy, keepAlive == Disabled, open))
      && keepAlive != KA.Idle
      && (if server then open == None && reading != Reading.Init
          else reading.Body? || reading.Continue? || reading.KeepAlive? ==> open == None)
    }

    /** `write_full_msg`: a head and the whole of its body. The buffer pushed is returned. */
    method WriteFullMsg(e: Event, msg: seq<byte>) returns (wrote: bool, pushed: seq<byte>)
      requires Valid() && MayWrite(e) && e.WriteHead? && 0 < |msg| < U64
      modifies this
      ensures Valid() && reading == old(reading) && Extends(old(log), log)
      ensures writing == Writing.KeepAlive || writing == Writing.Closed
      ensures wrote ==> open == if server then None else Some(e.id)
      ensures started == old(started) + (if wrote then [e.id] else []) && heard == old(heard)
      ensures !wrote ==> server && writing == Writing.Closed && error && open == old(open)
      ensures wrote && bodyKind == Encode.Length(0) ==> pushed == []
      ensures wrote && bodyKind != Encode.Length(0) ==>
                pushed == if bodyKind == Encode.Chunked then Encode.ChunkBytes(msg) + Encode.LAST_CHUNK else msg
    {
      pushed := [];
      var encoder := EncodeHead(e, Some(|msg|));
      wrote := encoder.Some?;
      if wrote {
        var (kind, isLast) := encoder.value;
        Commit(e);
        ghost var middle := log;
        pushed := WholeBody(kind, isLast, msg);
        ExtendsTransitive(old(log), middle, log);
      }
    }

    /** The whole body at once, unless there is to be none, and the message is over. */
    method WholeBody(kind: Encode.Kind, isLast: bool, msg: seq<byte>) returns (pushed: seq<byte>)
      requires ReadValid() && StateValidExceptWriting() && 0 < |msg| < U64
      requires kind in {Encode.Chunked, Encode.Length(0), Encode.Length(|msg|)}
      modifies `writing, `log, `bodyKind, `bodyWire, `bodyPayload
      ensures Valid() && Extends(old(log), log) && bodyKind == kind && bodyWire == pushed && bodyPayload == Payload(kind, msg)
      ensures writing == if isLast then Writing.Closed else Writing.KeepAlive
      ensures pushed == if kind == Encode.Length(0) then []
                        else if kind == Encode.Chunked then Encode.ChunkBytes(msg) + Encode.LAST_CHUNK else msg
    {
      pushed := [];
      if kind != Encode.Length(0) {
        var enc := new Encode.Encoder(kind, isLast);
        var buf := enc.DangerFullBuf(msg);
        pushed := buf.Bytes();
      }
      WholeBodyWritten(kind, msg, pushed);
      bodyKind, bodyWire, bodyPayload := kind, pushed, Payload(kind, msg);
      FinishWriting(isLast);
    }

    /** `write_body`: one more buffer of the body. */
    method WriteBody(chunk: seq<byte>) returns (pushed: seq<byte>)
      requires Valid() && CanWriteBody() && 0 < |chunk| < U64
      modifies `writing, `log, `bodyWire, `bodyPayload
      ensures Valid() && Extends(old(log), log) && pushed != []
      ensures bodyWire == old(bodyWire) + pushed && bodyPayload == old(bodyPayload) + Payload(old(writing).kind, chunk)
      ensures match old(writing).kind
              case Chunked => pushed == Encode.ChunkBytes(chunk) && writing == old(writing)
              case Length(n) =>
                && pushed == chunk[..Encode.Min(n, |chunk|)]
                && writing == (if |chunk| < n then Writing.Body(Encode.Length(n - |chunk|), old(writing).isLast)
                               else if old(writing).isLast then Writing.Closed else Writing.KeepAlive)
              case CloseDelimited => pushed == chunk && writing == old(writing)
      ensures CanWriteBody() ==> log == old(log)
    {
      var enc := new Encode.Encoder(writing.kind, writing.isLast);
      var buf := enc.Encode(chunk);
      pushed := buf.Bytes();
      Pushed(enc.kind, chunk, pushed);
    }

    /** What follows from a buffer pushed: the encoder moves on, or the message is over. */
    method Pushed(next: Encode.Kind, chunk: seq<byte>, pushed: seq<byte>)
      requires Valid() && CanWriteBody() && 0 < |chunk| < U64
      requires match writing.kind
               case Chunked => next == Encode.Chunked && pushed == Encode.ChunkBytes(chunk)
               case Length(n) => next == Encode.Length(n - Encode.Min(n, |chunk|)) && pushed == chunk[..Encode.Min(n, |chunk|)]
               case CloseDelimited => next == Encode.CloseDelimited && pushed == chunk
      modifies `writing, `log, `bodyWire, `bodyPayload
      ensures Valid() && Extends(old(log), log)
      ensures bodyWire == old(bodyWire) + pushed && bodyPayload == old(bodyPayload) + Payload(old(writing).kind, chunk)
      ensures if next == Encode.Length(0) then writing == if old(writing).isLast then Writing.Closed else Writing.KeepAlive
              else writing == Writing.Body(next, old(writing).isLast) && log == old(log)
    {
      MoreBody(bodyKind, writing.kind, next, bodyWire, bodyPayload, chunk, pushed);
      bodyWire, bodyPayload := bodyWire + pushed, bodyPayload + Payload(writing.kind, chunk);
      if next == Encode.Length(0) {
        FinishWriting(writing.isLast);
      } else {
        writing := Writing.Body(next, writing.isLast);
      }
    }

    /** `write_body_and_end`: the last buffer of the body and what ends it. */
    method WriteBodyAndEnd(chunk: seq<byte>) returns (pushed: seq<byte>)
      requires Valid() && CanWriteBody() && 0 < |chunk| < U64
      modifies `writing, `log, `bodyWire, `bodyPayload
      ensures Valid() && Extends(old(log), log) && pushed != []
      ensures bodyWire == old(bodyWire) + pushed && bodyPayload == old(bodyPayload) + Payload(old(writing).kind, chunk)
      ensures pushed == match old(writing).kind
                        case Chunked => Encode.ChunkBytes(chunk) + Encode.LAST_CHUNK
                        case Length(n) => chunk[..Encode.Min(n, |chunk|)]
                        case CloseDelimited => chunk
      ensures writing == if !old(writing).isLast && (old(writing).kind.Chunked? || (old(writing).kind.Length? && old(writing).kind.remaining <= |chunk|))
                         then Writing.KeepAlive else Writing.Closed
    {
      var enc := new Encode.Encoder(writing.kind, writing.isLast);
      var buf, canKeepAlive := enc.EncodeAndEnd(chunk);
      pushed := buf.Bytes();
      if canKeepAlive {
        LastOfBody(bodyKind, writing.kind, bodyWire, bodyPayload, chunk, pushed);
      }
      bodyWire, bodyPayload := bodyWire + pushed, bodyPayload + Payload(writing.kind, chunk);
      FinishWriting(!canKeepAlive);
    }

    /** `end_body`: nothing more comes. It is an error if bytes were announced that never came. */
    method EndBody() returns (ok: bool, pushed: seq<byte>)
      requires Valid()
      modifies `writing, `log, `bodyWire
      ensures Valid() && Extends(old(log), log) && bodyWire == old(bodyWire) + pushed
      ensures !old(CanWriteBody()) ==> ok && pushed == [] && writing == old(writing) && log == old(log)
      ensures old(CanWriteBody()) ==>
                && (ok <==> !old(writing).kind.Length?)
                && pushed == (if old(writing).kind.Chunked? then Encode.LAST_CHUNK else [])
                && writing == if old(writing).kind.Chunked? && !old(writing).isLast then Writing.KeepAlive else Writing.Closed
    {
      ok, pushed := true, [];
      if !writing.Body? {
        return;
      }
      var enc := new Encode.Encoder(writing.kind, writing.isLast);
      var end := enc.End();
      match end {
        case Ok(buf) =>
          if buf.Some? {
            pushed := buf.value.Bytes();
            RoundTrip.OpenedEnds(bodyWire, bodyPayload);
            bodyWire := bodyWire + pushed;
          }
          FinishWriting(enc.isLast || enc.kind.CloseDelimited?);
        case Err(_) =>
          ok := false;
          FinishWriting(true);
      }
    }

    /** `take_error`. */
    method TakeError() returns (r: bool)
      modifies `error
      ensures r == old(error) && !error
    {
      r := error;
      error := false;
    }

    /** `poll_flush`: once everything is written, see whether the connection can be used again. */
    method PollFlush() returns (r: Poll<bool>)
      requires Valid()
      modifies `reading, `writing, `keepAlive, `log, `notifyRead, `error, io
      ensures Valid() && Extends(old(log), log) && open == old(open)
      ensures CanReadBody() ==> reading == old(reading)
      ensures old(reading).Body? ==> reading == old(reading) && writing == old(writing)
      ensures CanWriteBody() ==> writing == old(writing)
      ensures old(reading) == Reading.Closed ==> reading == Reading.Closed
      ensures old(writing) == Writing.Closed ==> writing == Writing.Closed
      ensures r != Ready(true) ==> reading == old(reading) && writing == old(writing)
      ensures r == Ready(true) ==> Decided() || (old(reading) == Reading.Init && reading == Reading.Closed)
      ensures (old(notifyRead) ==> notifyRead) && (r == Ready(true) ==> Noticed())
      ensures old(Attentive()) ==> Attentive() && (old(reading) == Reading.Init ==> reading == Reading.Init)
    {
      r := *;
      if r == Ready(true) {
        TryKeepAlive();
      }
    }
  }
}
